/**
 The media and catalog services together with the task queue: one database, any interleaving of calls and worker steps.  In every
 reachable state each media row has exactly one ingestion task.
 */
module MediaRuns {
  import opened Results
  import opened Catalog
  import opened TaskTable
  import opened TaskSystem
  import opened TaskInvariants
  import opened MediaOps
  import opened DvdIngestion
  import opened ServiceCalls

  datatype World = World(sys: System, db: Tables)

  function TaskRows(w: World): Rows {
    w.sys.db.rows
  }

  /** `CreateDvdIngestionTask`. */
  function NewIngestion(m: Id): Op {
    Create(DVD_INGESTION, Some(Json(Some(m), "")))
  }

  /** `PostMedia`: the inserts, the record read back, and the ingestion task, all in one transaction. */
  function PostMedia(w: World, body: Option<NewMedia>): Result<World, ApiError> {
    match PostTables(w.db, body)
    case Err(e) => Err(e)
    case Ok(db) =>
      match GetMedia(db, TaskRows(w), w.db.nextMedia)
      case Err(e) => Err(e)
      case Ok(_) =>
        match RunOps(w.sys.db, w.sys.now, [NewIngestion(w.db.nextMedia)])
        case Err(_) => Err(Internal)
        case Ok(done) => Result.Ok(World(Committed(w.sys, done), db))
  }

  // ------------------------------------------------------------------------ runs

  datatype Action =
    | Post(body: Option<NewMedia>)
    | Serve(call: Call)
    | Lost(gap: nat)                                 // a call that failed; it may have used up media ids
    | Work(step: Step, seen: bool, renamed: bool)    // the task queue and its other callers

  predicate NoIngestions(ops: seq<Op>) {
    forall i :: 0 <= i < |ops| && (ops[i].Create? || ops[i].CreateChild?) ==> ops[i].taskType != DVD_INGESTION
  }

  /** `v` is about to commit the result of an ingestion. */
  predicate CommitsIngestion(w: World, v: WorkerId) {
    HasDecided(w.sys, v) && w.sys.ctl[v].hold.task in TaskRows(w) && IsIngestion(TaskRows(w)[w.sys.ctl[v].hold.task])
  }

  function HandledBy(w: World, v: WorkerId, seen: bool, renamed: bool): (Tables, HandlerResult)
    requires CommitsIngestion(w, v)
  {
    Handle(w.db, TaskRows(w)[w.sys.ctl[v].hold.task].state, seen, renamed)
  }

  /** Only `PostMedia` creates ingestion tasks, and ingestion tasks are run by the ingestion handler. */
  predicate Behaves(w: World, step: Step, seen: bool, renamed: bool) {
    match step
    case Api(ops) => NoIngestions(ops)
    case Commit(v) =>
      HasDecided(w.sys, v) ==>
        var d := w.sys.ctl[v].hold.decision.value;
        && NoIngestions(d.ops)
        && (CommitsIngestion(w, v) ==> d.ops == [] && d.result == HandledBy(w, v, seen, renamed).1)
    case _ => true
  }

  ghost predicate Can(w: World, a: Action) {
    match a
    case Post(body) => PostMedia(w, body).Ok?
    case Serve(call) => Perform(w.db, TaskRows(w), call).Ok?
    case Lost(_) => true
    case Work(step, seen, renamed) => Enabled(w.sys, step) && Behaves(w, step, seen, renamed)
  }

  function TablesAfter(w: World, step: Step, seen: bool, renamed: bool): Tables {
    if step.Commit? && CommitsIngestion(w, step.w) then HandledBy(w, step.w, seen, renamed).0 else w.db
  }

  ghost function Next(w: World, a: Action): World
    requires Can(w, a)
  {
    match a
    case Post(body) => PostMedia(w, body).value
    case Serve(call) => w.(db := Perform(w.db, TaskRows(w), call).value)
    case Lost(gap) => w.(db := w.db.(nextMedia := w.db.nextMedia + gap))
    case Work(step, seen, renamed) => World(Do(w.sys, step), TablesAfter(w, step, seen, renamed))
  }

  ghost predicate NextAt(ws: seq<World>, acts: seq<Action>, i: nat)
    requires i < |acts| && i + 1 < |ws|
  {
    Can(ws[i], acts[i]) && ws[i + 1] == Next(ws[i], acts[i])
  }

  /** A run from a fresh database, or from one that an earlier run left behind. */
  ghost predicate IsHistory(ws: seq<World>, acts: seq<Action>) {
    && |ws| == |acts| + 1
    && Init(ws[0].sys) && Catalog.Ok(ws[0].db) && Ingested(TaskRows(ws[0]), ws[0].db)
    && forall i :: 0 <= i < |acts| ==> NextAt(ws, acts, i)
  }

  /** A fresh database is such a start. */
  lemma FreshStart(w: World)
    requires Init(w.sys) && TaskRows(w) == map[]
    requires w.db == Tables(map[], map[], map[], map[], map[], map[], {}, {}, {}, 1, 1, 1)
    ensures IsHistory([w], [])
  {
    assert OneDefault(w.db.kinds);
  }

  // ------------------------------------------------------------------- invariant

  predicate IngestionAt(rows: Rows, t: TaskId) {
    t in rows && IsIngestion(rows[t])
  }

  /** Ingestion tasks carry distinct media ids below the sequence and never wait; every media row has one. */
  ghost predicate Ingested(rows: Rows, db: Tables) {
    && (forall t :: IngestionAt(rows, t) ==>
          rows[t].state.mediaId.Some? && rows[t].state.mediaId.value < db.nextMedia && !rows[t].status.Waiting?)
    && (forall t, u :: IngestionAt(rows, t) && IngestionAt(rows, u) && rows[t].state.mediaId == rows[u].state.mediaId ==> t == u)
    && (forall m :: m in db.media ==> Joined(rows, m) != {})
  }

  ghost predicate WorldInv(w: World) {
    Inv(w.sys) && Catalog.Ok(w.db) && Ingested(TaskRows(w), w.db)
  }

  /** The same ingestion tasks with the same payloads, none of them newly waiting. */
  ghost predicate SameIngestions(a: Rows, b: Rows) {
    && (forall t :: IngestionAt(a, t) == IngestionAt(b, t))
    && (forall t :: IngestionAt(a, t) ==> b[t].state == a[t].state && !b[t].status.Waiting?)
  }

  lemma SameJoin(a: Rows, b: Rows, m: Id)
    requires SameIngestions(a, b)
    ensures Joined(a, m) == Joined(b, m)
  {
    forall t ensures t in Joined(a, m) <==> t in Joined(b, m) {
      assert IngestionAt(a, t) == IngestionAt(b, t);
    }
  }

  lemma IngestedSame(a: Rows, b: Rows, db: Tables, after: Tables)
    requires Ingested(a, db) && SameIngestions(a, b) && after.media.Keys <= db.media.Keys && db.nextMedia <= after.nextMedia
    ensures Ingested(b, after)
  {
    forall t, u | IngestionAt(b, t) && IngestionAt(b, u) && b[t].state.mediaId == b[u].state.mediaId ensures t == u {
      assert IngestionAt(a, t) && IngestionAt(a, u);
    }
    forall m | m in after.media ensures Joined(b, m) != {} {
      SameJoin(a, b, m);
    }
  }

  // ---------------------------------------------------------------- the task queue

  /** No ingestion task waits. */
  ghost predicate NoneWaits(rows: Rows) {
    forall t :: IngestionAt(rows, t) ==> !rows[t].status.Waiting?
  }

  /** API calls that create no ingestion task add none. */
  lemma {:induction false} OpsAddNone(db: Db, now: Time, ops: seq<Op>, t: TaskId)
    requires WellFormed(db) && NoIngestions(ops) && RunOps(db, now, ops).Ok? && t !in db.rows
    ensures !IngestionAt(RunOps(db, now, ops).value.value.rows, t)
    decreases |ops|
  {
    if ops != [] {
      var mid := RunOp(db, now, ops[0]).value.value;
      OpTouches(db, now, ops[0]);
      assert NoIngestions(ops[1..]) by {
        assert forall i :: 0 <= i < |ops[1..]| ==> ops[1..][i] == ops[i + 1];
      }
      if t in mid.rows {
        assert mid.rows[t].taskType != DVD_INGESTION;
        OpsTouch(mid, now, ops[1..]);
      } else {
        OpsAddNone(mid, now, ops[1..], t);
      }
    }
  }

  lemma OpsSame(db: Db, now: Time, ops: seq<Op>)
    requires WellFormed(db) && NoIngestions(ops) && RunOps(db, now, ops).Ok? && NoneWaits(db.rows)
    ensures SameIngestions(db.rows, RunOps(db, now, ops).value.value.rows)
  {
    var after := RunOps(db, now, ops).value.value.rows;
    OpsTouch(db, now, ops);
    forall t ensures IngestionAt(db.rows, t) == IngestionAt(after, t) {
      if t in db.rows {
        assert Touched(db.rows[t], after[t]);
      } else {
        OpsAddNone(db, now, ops, t);
      }
    }
    forall t | IngestionAt(db.rows, t) ensures after[t].state == db.rows[t].state && !after[t].status.Waiting? {
      assert Touched(db.rows[t], after[t]);
    }
  }

  /** Applying a result: the row itself keeps its payload if the result brings none, and other rows only go from waiting to pending. */
  lemma ResultSame(a: Rows, id: TaskId, r: HandlerResult, b: Rows)
    requires id in a && r.newStatus.Known? && ResultEffect(a, id, r, b) && NoneWaits(a)
    requires IsIngestion(a[id]) ==> r.newState.None? && r.newStatus.status in {Completed, Failed}
    ensures SameIngestions(a, b)
  {
    forall t | t in a ensures b[t].taskType == a[t].taskType {
      assert t != id ==> b[t] == a[t] || b[t] == a[t].(status := Pending);
    }
  }

  lemma SameTrans(a: Rows, b: Rows, c: Rows)
    requires SameIngestions(a, b) && SameIngestions(b, c)
    ensures SameIngestions(a, c)
  {
    forall t | IngestionAt(a, t) ensures c[t].state == a[t].state && !c[t].status.Waiting? {
      assert IngestionAt(b, t);
    }
  }

  lemma CommitSame(w: World, v: WorkerId, seen: bool, renamed: bool)
    requires Inv(w.sys) && NoneWaits(TaskRows(w)) && Can(w, Work(Commit(v), seen, renamed))
    ensures SameIngestions(TaskRows(w), Do(w.sys, Commit(v)).db.rows)
  {
    var h := w.sys.ctl[v].hold;
    var d := h.decision.value;
    ProcessorHolds(w.sys, v);
    CommitTouches(w.sys.db, w.sys.now, h.task, d.ops, d.result);
    OpsSame(w.sys.db, w.sys.now, d.ops);
    var mid := RunOps(w.sys.db, w.sys.now, d.ops).value.value;
    assert IngestionAt(mid.rows, h.task) ==> IngestionAt(TaskRows(w), h.task);
    ResultSame(mid.rows, h.task, d.result, Do(w.sys, Commit(v)).db.rows);
    SameTrans(TaskRows(w), mid.rows, Do(w.sys, Commit(v)).db.rows);
  }

  lemma OneRowSame(rows: Rows, id: TaskId, t: Task)
    requires id in rows && NoneWaits(rows) && t.taskType == rows[id].taskType && t.state == rows[id].state && !t.status.Waiting?
    ensures SameIngestions(rows, rows[id := t])
  {
  }

  lemma SelfSame(rows: Rows)
    requires NoneWaits(rows)
    ensures SameIngestions(rows, rows)
  {
  }

  lemma RenewSame(rows: Rows, id: TaskId, v: WorkerId, lease: Time)
    requires NoneWaits(rows)
    ensures SameIngestions(rows, Renew(rows, id, v, lease)) && SameIngestions(rows, rows)
  {
    if OwnedBy(rows, id, v) {
      OneRowSame(rows, id, rows[id].(leaseExpiresAt := Some(lease)));
    }
  }

  lemma ClaimSame(s: System, id: TaskId)
    requires NoneWaits(s.db.rows) && Enabled(s, Claim(id))
    ensures SameIngestions(s.db.rows, Do(s, Claim(id)).db.rows)
  {
    OneRowSame(s.db.rows, id, ClaimedBy(s.db.rows[id], s.scanner.worker, s.now + LEASE_DURATION));
  }

  lemma HeartbeatSame(s: System, v: WorkerId, ok: bool)
    requires NoneWaits(s.db.rows) && Enabled(s, Heartbeat(v, ok))
    ensures SameIngestions(s.db.rows, Do(s, Heartbeat(v, ok)).db.rows)
  {
    RenewSame(s.db.rows, s.ctl[v].hold.task, v, s.now + LEASE_DURATION);
  }

  lemma QuietSame(s: System, step: Step)
    requires NoneWaits(s.db.rows) && Enabled(s, step)
    requires !step.Api? && !step.Commit? && !step.Claim? && !step.NoHandler? && !step.Heartbeat?
    ensures SameIngestions(s.db.rows, Do(s, step).db.rows)
  {
    assert Do(s, step).db.rows == s.db.rows;
    SelfSame(s.db.rows);
  }

  /** No step of the queue adds, removes or rewrites an ingestion task, or makes one wait. */
  lemma StepSame(w: World, step: Step, seen: bool, renamed: bool)
    requires Inv(w.sys) && NoneWaits(TaskRows(w)) && Can(w, Work(step, seen, renamed))
    ensures SameIngestions(TaskRows(w), Do(w.sys, step).db.rows)
  {
    var s := w.sys;
    match step
    case Api(ops) => OpsSame(s.db, s.now, ops);
    case Commit(v) => CommitSame(w, v, seen, renamed);
    case Claim(id) => ClaimSame(s, id);
    case NoHandler(ok) => NoHandlerDisabled(s, ok);
    case Heartbeat(v, ok) => HeartbeatSame(s, v, ok);
    case _ => QuietSame(s, step);
  }

  lemma WorkKeepsInv(w: World, step: Step, seen: bool, renamed: bool)
    requires WorldInv(w) && Can(w, Work(step, seen, renamed))
    ensures WorldInv(Next(w, Work(step, seen, renamed)))
  {
    StepKeepsInv(w.sys, step);
    StepSame(w, step, seen, renamed);
    var after := TablesAfter(w, step, seen, renamed);
    if step.Commit? && CommitsIngestion(w, step.w) {
      HandleKeepsOk(w.db, TaskRows(w)[w.sys.ctl[step.w].hold.task].state, seen, renamed);
    }
    IngestedSame(TaskRows(w), Do(w.sys, step).db.rows, w.db, after);
  }

  // --------------------------------------------------------------- the media calls

  lemma NoTaskYet(w: World)
    requires WorldInv(w)
    ensures Joined(TaskRows(w), w.db.nextMedia) == {}
  {
    forall t ensures t !in Joined(TaskRows(w), w.db.nextMedia) {
      assert IngestionAt(TaskRows(w), t) ==> TaskRows(w)[t].state.mediaId.value < w.db.nextMedia;
    }
  }

  lemma OneOp(db: Db, now: Time, m: Id)
    ensures var t := Task(DVD_INGESTION, Json(Some(m), ""), Pending, None, None, None, None, now);
      RunOps(db, now, [NewIngestion(m)]) == Result.Ok(Written(Db(db.rows[db.nextId := t], db.nextId + 1), true))
  {
    var ops := [NewIngestion(m)];
    assert ops[1..] == [];
  }

  /** `PostMedia` succeeds exactly on requests whose references exist and whose path is free: it never trips over task rows. */
  lemma PostSucceeds(w: World, b: NewMedia)
    requires WorldInv(w)
    ensures PostMedia(w, Some(b)).Ok? <==> Postable(w.db, b)
  {
    PostExact(w.db, b);
    NoTaskYet(w);
    OneOp(w.sys.db, w.sys.now, w.db.nextMedia);
  }

  lemma IngestedMore(rows: Rows, id: TaskId, t: Task, db: Tables, after: Tables)
    requires Ingested(rows, db) && id !in rows && IsIngestion(t) && t.state.mediaId == Some(db.nextMedia) && t.status.Pending?
    requires after.nextMedia == db.nextMedia + 1 && after.media.Keys == db.media.Keys + {db.nextMedia}
    ensures Ingested(rows[id := t], after)
  {
    var b := rows[id := t];
    forall x, y | IngestionAt(b, x) && IngestionAt(b, y) && b[x].state.mediaId == b[y].state.mediaId ensures x == y {
      assert x != id ==> IngestionAt(rows, x);
      assert y != id ==> IngestionAt(rows, y);
    }
    forall m | m in after.media ensures Joined(b, m) != {} {
      if m == db.nextMedia {
        assert id in Joined(b, m);
      } else {
        var x :| x in Joined(rows, m);
        assert x in Joined(b, m);
      }
    }
  }

  lemma PostKeepsInv(w: World, body: Option<NewMedia>)
    requires WorldInv(w) && Can(w, Post(body))
    ensures WorldInv(Next(w, Post(body)))
  {
    var m := w.db.nextMedia;
    PostKeepsOk(w.db, body);
    OneOp(w.sys.db, w.sys.now, m);
    StepKeepsInv(w.sys, Api([NewIngestion(m)]));
    var t := Task(DVD_INGESTION, Json(Some(m), ""), Pending, None, None, None, None, w.sys.now);
    IngestedMore(TaskRows(w), w.sys.db.nextId, t, w.db, PostTables(w.db, body).value);
  }

  /** Calls that leave the tasks alone: what they owe the invariant. */
  lemma TablesKeepInv(w: World, after: Tables)
    requires WorldInv(w) && Catalog.Ok(after) && after.media.Keys <= w.db.media.Keys && w.db.nextMedia <= after.nextMedia
    ensures WorldInv(w.(db := after))
  {
    IngestedSame(TaskRows(w), TaskRows(w), w.db, after);
  }

  lemma ServeKeepsInv(w: World, call: Call)
    requires WorldInv(w) && Can(w, Serve(call))
    ensures WorldInv(Next(w, Serve(call)))
  {
    CallsFair(w.db, TaskRows(w), call);
    TablesKeepInv(w, Perform(w.db, TaskRows(w), call).value);
  }

  lemma GapKeepsOk(db: Tables, gap: nat)
    requires Catalog.Ok(db)
    ensures Catalog.Ok(db.(nextMedia := db.nextMedia + gap))
  {
  }

  lemma LostKeepsInv(w: World, gap: nat)
    requires WorldInv(w)
    ensures WorldInv(w.(db := w.db.(nextMedia := w.db.nextMedia + gap)))
  {
    GapKeepsOk(w.db, gap);
    TablesKeepInv(w, w.db.(nextMedia := w.db.nextMedia + gap));
  }

  // --------------------------------------------------------------------- every run

  lemma NextKeepsInv(w: World, a: Action)
    requires WorldInv(w) && Can(w, a)
    ensures WorldInv(Next(w, a))
  {
    match a
    case Post(body) => PostKeepsInv(w, body);
    case Serve(call) => ServeKeepsInv(w, call);
    case Lost(gap) =>
      LostKeepsInv(w, gap);
      assert Next(w, a) == w.(db := w.db.(nextMedia := w.db.nextMedia + gap));
    case Work(step, seen, renamed) => WorkKeepsInv(w, step, seen, renamed);
  }

  /** Every invariant of the tables, of the queue and of their connection, in every reachable state. */
  lemma {:induction false} HistoryInv(ws: seq<World>, acts: seq<Action>, i: nat)
    requires IsHistory(ws, acts) && i < |ws|
    ensures WorldInv(ws[i])
  {
    if i == 0 {
      InitInv(ws[0].sys);
    } else {
      HistoryInv(ws, acts, i - 1);
      assert NextAt(ws, acts, i - 1);
      NextKeepsInv(ws[i - 1], acts[i - 1]);
    }
  }

  lemma OneTask(w: World, m: Id)
    requires WorldInv(w) && m in w.db.media
    ensures |Joined(TaskRows(w), m)| == 1
  {
    var t :| t in Joined(TaskRows(w), m);
    forall u | u in Joined(TaskRows(w), m) ensures u == t {
      assert IngestionAt(TaskRows(w), t) && IngestionAt(TaskRows(w), u);
    }
    assert Joined(TaskRows(w), m) == {t};
  }

  /** The rows of `media LEFT JOIN tasks`. */
  ghost predicate JoinRow(w: World, m: Id, t: Option<TaskId>) {
    m in w.db.media && if t.Some? then t.value in Joined(TaskRows(w), m) else Joined(TaskRows(w), m) == {}
  }

  /**
   One ingestion task per media, in every reachable state: the join gives each media row once, `getMedia` answers for exactly the existing
   ids and never finds several records, and what it reports is the state of that one task.
   */
  lemma OneIngestionPerMedia(ws: seq<World>, acts: seq<Action>, i: nat, m: Id)
    requires IsHistory(ws, acts) && i < |ws|
    ensures var w := ws[i];
      && (m in w.db.media <==> exists t :: JoinRow(w, m, t))
      && (forall t, u :: JoinRow(w, m, t) && JoinRow(w, m, u) ==> t == u && t.Some?)
      && (m !in w.db.media ==> GetMedia(w.db, TaskRows(w), m) == Err(NotFound))
      && (m in w.db.media ==>
            && |Joined(TaskRows(w), m)| == 1 && m in w.db.dvds && GetMedia(w.db, TaskRows(w), m).Ok?
            && var t := TaskRows(w)[TheOne(Joined(TaskRows(w), m))];
               GetMedia(w.db, TaskRows(w), m).value.dvd == Some(Dvd(w.db.dvds[m], IngestionOf(t.status, t.error))))
  {
    HistoryInv(ws, acts, i);
    var w := ws[i];
    if m in w.db.media {
      OneTask(w, m);
      assert JoinRow(w, m, Some(TheOne(Joined(TaskRows(w), m))));
    }
  }

  lemma ActionKeepsTask(w: World, a: Action, t: TaskId)
    requires WorldInv(w) && Can(w, a) && IngestionAt(TaskRows(w), t)
    ensures var rows := TaskRows(Next(w, a));
      && IngestionAt(rows, t) && rows[t].state == TaskRows(w)[t].state
      && (TaskRows(w)[t].status.Failed? ==> rows[t].status.Failed?)
  {
    if a.Work? {
      StepSame(w, a.step, a.seen, a.renamed);
      StepKeepsRow(w.sys, a.step, t);
    } else if a.Post? {
      OneOp(w.sys.db, w.sys.now, w.db.nextMedia);
      assert t < w.sys.db.nextId;
    }
  }

  lemma TaskStaysAt(ws: seq<World>, acts: seq<Action>, i: nat, t: TaskId)
    requires IsHistory(ws, acts) && i < |acts| && IngestionAt(TaskRows(ws[i]), t)
    ensures IngestionAt(TaskRows(ws[i + 1]), t) && TaskRows(ws[i + 1])[t].state == TaskRows(ws[i])[t].state
    ensures TaskRows(ws[i])[t].status.Failed? ==> TaskRows(ws[i + 1])[t].status.Failed?
  {
    HistoryInv(ws, acts, i);
    assert NextAt(ws, acts, i);
    ActionKeepsTask(ws[i], acts[i], t);
  }

  lemma {:induction false} TaskStays(ws: seq<World>, acts: seq<Action>, i: nat, j: nat, t: TaskId)
    requires IsHistory(ws, acts) && i <= j < |ws| && IngestionAt(TaskRows(ws[i]), t)
    ensures IngestionAt(TaskRows(ws[j]), t) && TaskRows(ws[j])[t].state == TaskRows(ws[i])[t].state
    ensures TaskRows(ws[i])[t].status.Failed? ==> TaskRows(ws[j])[t].status.Failed?
    decreases j
  {
    if i < j {
      TaskStays(ws, acts, i, j - 1, t);
      TaskStaysAt(ws, acts, j - 1, t);
    }
  }

  function Reported(w: World, m: Id): Option<Dvd> {
    match GetMedia(w.db, TaskRows(w), m) case Ok(view) => view.dvd case Err(_) => None
  }

  /** A media keeps its task for life, and once its ingestion is reported as an error it is never reported as anything else. */
  lemma ErrorReportIsFinal(ws: seq<World>, acts: seq<Action>, i: nat, j: nat, m: Id)
    requires IsHistory(ws, acts) && i <= j < |ws| && m in ws[i].db.media && m in ws[j].db.media
    ensures Joined(TaskRows(ws[j]), m) == Joined(TaskRows(ws[i]), m)
    ensures Reported(ws[i], m).Some? && Reported(ws[j], m).Some?
    ensures Reported(ws[i], m).value.ingestion.IngestionError? ==> Reported(ws[j], m).value.ingestion.IngestionError?
  {
    OneIngestionPerMedia(ws, acts, i, m);
    OneIngestionPerMedia(ws, acts, j, m);
    var t, u := TheOne(Joined(TaskRows(ws[i]), m)), TheOne(Joined(TaskRows(ws[j]), m));
    assert t in Joined(TaskRows(ws[i]), m);
    TaskStays(ws, acts, i, j, t);
    assert t in Joined(TaskRows(ws[j]), m);
    assert t == u;
  }
}
