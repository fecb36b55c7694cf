/** What a finished ingestion means for the path: the DVD is where ingestion puts it, unless a caller has moved it since. */
module MediaDone {
  import opened Results
  import opened Catalog
  import opened Folds
  import opened TaskTable
  import opened TaskSystem
  import opened TaskInvariants
  import opened TaskFinality
  import opened MediaOps
  import opened DvdIngestion
  import opened ServiceCalls
  import opened MediaRuns
  import MediaPaths
  import MediaReports

  /** `t` is a finished ingestion of media `m`. */
  predicate DoneTask(rows: Rows, m: Id, t: TaskId) {
    IngestionAt(rows, t) && rows[t].state.mediaId == Some(m) && rows[t].status.Completed?
  }

  /** If the ingestion of `m` is finished, its DVD is at its final path. */
  ghost predicate Moved(rows: Rows, dvds: map<Id, string>, m: Id) {
    m in dvds && (exists t :: DoneTask(rows, m, t)) ==> dvds[m] == FinalPath(m)
  }

  /** The caller does not patch the path of `m`. */
  predicate LeavesPath(a: Action, m: Id) {
    a.Serve? && a.call.PatchMedia? && a.call.id == m ==> forall i :: 0 <= i < |a.call.patches| ==> a.call.patches[i].dvd.None?
  }

  lemma {:induction false} PatchesLeavePaths(id: Id, isDvd: bool, db: Tables, ps: seq<MediaPatch>)
    requires Fold((s, p) => PatchOne(id, isDvd, s, p), db, ps).Ok? && forall i :: 0 <= i < |ps| ==> ps[i].dvd.None?
    ensures Fold((s, p) => PatchOne(id, isDvd, s, p), db, ps).value.dvds == db.dvds
    decreases |ps|
  {
    if ps != [] {
      MediaPaths.PatchOnePath(id, isDvd, db, ps[0]);
      PatchesLeavePaths(id, isDvd, PatchOne(id, isDvd, db, ps[0]).value, ps[1..]);
    }
  }

  /** A call that leaves the path of `m` alone does not move it. */
  lemma CallLeavesPath(db: Tables, rows: Rows, call: Call, m: Id)
    requires Catalog.Ok(db) && Perform(db, rows, call).Ok? && LeavesPath(Serve(call), m) && m in Perform(db, rows, call).value.dvds
    ensures m in db.dvds && Perform(db, rows, call).value.dvds[m] == db.dvds[m]
  {
    if call.PatchMedia? {
      if call.id == m {
        PatchesLeavePaths(m, IsDvd(db, m), db, call.patches);
      } else {
        PatchMediaKeepsOk(db, rows, call.id, call.patches);
      }
    } else if call.PostCard? || call.DeleteCard? || call.PatchCard? {
      CardCallsFair(db, rows, call);
    } else if !call.DeleteMedia? {
      KindCallsFair(db, rows, call);
    }
  }

  lemma TouchCompletesNothing(a: Task, b: Task)
    requires Touched(a, b) && !a.status.Completed?
    ensures !b.status.Completed?
  {
  }

  lemma ResultCompletesOwn(a: Rows, id: TaskId, r: HandlerResult, b: Rows, t: TaskId)
    requires id in a && r.newStatus.Known? && ResultEffect(a, id, r, b) && t in a && t != id && !a[t].status.Completed?
    ensures !b[t].status.Completed?
  {
  }

  /** A commit completes no task but its own. */
  lemma CommitCompletesOwn(s: System, v: WorkerId, t: TaskId)
    requires Inv(s) && Enabled(s, Commit(v)) && t in s.db.rows && t != s.ctl[v].hold.task && !IsCompleted(s, t)
    ensures !IsCompleted(Do(s, Commit(v)), t)
  {
    ProcessorHolds(s, v);
    var h := s.ctl[v].hold;
    var d := h.decision.value;
    CommitTouches(s.db, s.now, h.task, d.ops, d.result);
    var mid := RunOps(s.db, s.now, d.ops).value.value.rows;
    assert t in mid && Touched(s.db.rows[t], mid[t]);
    TouchCompletesNothing(s.db.rows[t], mid[t]);
    ResultCompletesOwn(mid, h.task, d.result, Do(s, Commit(v)).db.rows, t);
  }

  /** An ingestion is finished after a step only if it was before, or its own handler commits success. */
  lemma DoneSource(w: World, step: Step, seen: bool, renamed: bool, m: Id, t: TaskId)
    requires WorldInv(w) && Can(w, Work(step, seen, renamed)) && DoneTask(Do(w.sys, step).db.rows, m, t)
    ensures || DoneTask(TaskRows(w), m, t)
            || (step.Commit? && CommitsIngestion(w, step.w) && w.sys.ctl[step.w].hold.task == t
                && TaskRows(w)[t].state.mediaId == Some(m) && seen && renamed)
  {
    StepSame(w, step, seen, renamed);
    assert IngestionAt(TaskRows(w), t);
    if !IsCompleted(w.sys, t) {
      if !step.Commit? {
        BecomesCompleted(w.sys, step, t);
      } else if w.sys.ctl[step.w].hold.task != t {
        CommitCompletesOwn(w.sys, step.w, t);
      } else {
        OwnResult(w, step.w, seen, renamed, t);
      }
    }
  }

  lemma OwnResult(w: World, v: WorkerId, seen: bool, renamed: bool, t: TaskId)
    requires WorldInv(w) && Can(w, Work(Commit(v), seen, renamed)) && w.sys.ctl[v].hold.task == t && IngestionAt(TaskRows(w), t)
    requires IsCompleted(Do(w.sys, Commit(v)), t) && !IsCompleted(w.sys, t)
    ensures CommitsIngestion(w, v) && seen && renamed
  {
    ProcessorHolds(w.sys, v);
    var d := w.sys.ctl[v].hold.decision.value;
    CommitTouches(w.sys.db, w.sys.now, t, d.ops, d.result);
  }

  /** The handler leaves a path alone or makes it final, and makes final the one of its own media when it succeeds. */
  lemma HandlePath(db: Tables, state: Json, seen: bool, renamed: bool, m: Id)
    requires m in Handle(db, state, seen, renamed).0.dvds
    ensures m in db.dvds
    ensures var path := Handle(db, state, seen, renamed).0.dvds[m];
      (path == db.dvds[m] || path == FinalPath(m)) && (state.mediaId == Some(m) && seen && renamed ==> path == FinalPath(m))
  {
  }

  lemma WorkKeepsMoved(w: World, step: Step, seen: bool, renamed: bool, m: Id)
    requires WorldInv(w) && Can(w, Work(step, seen, renamed)) && Moved(TaskRows(w), w.db.dvds, m)
    ensures Moved(Do(w.sys, step).db.rows, TablesAfter(w, step, seen, renamed).dvds, m)
  {
    var dvds := TablesAfter(w, step, seen, renamed).dvds;
    if m in dvds && exists t :: DoneTask(Do(w.sys, step).db.rows, m, t) {
      var t :| DoneTask(Do(w.sys, step).db.rows, m, t);
      DoneSource(w, step, seen, renamed, m, t);
      if step.Commit? && CommitsIngestion(w, step.w) {
        HandlePath(w.db, TaskRows(w)[w.sys.ctl[step.w].hold.task].state, seen, renamed, m);
      }
      assert dvds[m] == FinalPath(m);
    }
  }

  lemma PostKeepsMoved(w: World, body: Option<NewMedia>, m: Id)
    requires WorldInv(w) && Can(w, Post(body)) && Moved(TaskRows(w), w.db.dvds, m)
    ensures Moved(TaskRows(Next(w, Post(body))), Next(w, Post(body)).db.dvds, m)
  {
    var after := Next(w, Post(body));
    PostExact(w.db, body.value);
    OneOp(w.sys.db, w.sys.now, w.db.nextMedia);
    if t :| DoneTask(TaskRows(after), m, t) {
      assert t != w.sys.db.nextId && DoneTask(TaskRows(w), m, t);
      assert m < w.db.nextMedia;
    }
  }

  lemma NextKeepsMoved(w: World, a: Action, m: Id)
    requires WorldInv(w) && Can(w, a) && LeavesPath(a, m) && Moved(TaskRows(w), w.db.dvds, m)
    ensures Moved(TaskRows(Next(w, a)), Next(w, a).db.dvds, m)
  {
    match a
    case Post(body) => PostKeepsMoved(w, body, m);
    case Serve(call) =>
      if m in Next(w, a).db.dvds {
        CallLeavesPath(w.db, TaskRows(w), call, m);
      }
    case Lost(_) =>
    case Work(step, seen, renamed) => WorkKeepsMoved(w, step, seen, renamed, m);
  }

  lemma MovedAt(ws: seq<World>, acts: seq<Action>, i: nat, m: Id)
    requires IsHistory(ws, acts) && i < |acts| && LeavesPath(acts[i], m) && Moved(TaskRows(ws[i]), ws[i].db.dvds, m)
    ensures Moved(TaskRows(ws[i + 1]), ws[i + 1].db.dvds, m)
  {
    HistoryInv(ws, acts, i);
    assert NextAt(ws, acts, i);
    NextKeepsMoved(ws[i], acts[i], m);
  }

  lemma {:induction false} MovedThroughout(ws: seq<World>, acts: seq<Action>, i: nat, m: Id)
    requires IsHistory(ws, acts) && i < |ws| && Moved(TaskRows(ws[0]), ws[0].db.dvds, m)
    requires forall k :: 0 <= k < i ==> LeavesPath(acts[k], m)
    ensures Moved(TaskRows(ws[i]), ws[i].db.dvds, m)
  {
    if i > 0 {
      MovedThroughout(ws, acts, i - 1, m);
      MovedAt(ws, acts, i - 1, m);
    }
  }

  /** In every history from a database without tasks and without a path patch of `m`: an ingestion reported as done means that the DVD is at its final path. */
  lemma DoneMeansMoved(ws: seq<World>, acts: seq<Action>, i: nat, m: Id)
    requires IsHistory(ws, acts) && i < |ws| && TaskRows(ws[0]) == map[] && m in ws[i].db.media
    requires forall k :: 0 <= k < i ==> LeavesPath(acts[k], m)
    requires MediaReports.DoneAt(ws, i, m)
    ensures m in ws[i].db.dvds && ws[i].db.dvds[m] == FinalPath(m) && Reported(ws[i], m).value.path == FinalPath(m)
  {
    MovedThroughout(ws, acts, i, m);
    OneIngestionPerMedia(ws, acts, i, m);
    var t := TheOne(Joined(TaskRows(ws[i]), m));
    assert t in Joined(TaskRows(ws[i]), m);
    assert DoneTask(TaskRows(ws[i]), m, t);
  }
}
