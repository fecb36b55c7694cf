/** No two DVDs at one path: true in every run whose callers keep away from the paths that ingestion writes. */
module MediaPaths {
  import opened Results
  import opened Catalog
  import opened Folds
  import opened TaskTable
  import opened MediaOps
  import opened DvdIngestion
  import opened ServiceCalls
  import opened MediaRuns

  /** A path that ingestion gives to some media. */
  ghost predicate Reserved(path: string) {
    exists k :: path == FinalPath(k)
  }

  /** Each DVD is at its own final path or at one that ingestion never writes, and no two are at the same path. */
  ghost predicate Apart(dvds: map<Id, string>) {
    PathsUnique(dvds) && forall m :: m in dvds ==> dvds[m] == FinalPath(m) || !Reserved(dvds[m])
  }

  ghost predicate Allowed(p: MediaPatch) {
    p.dvd.Some? && p.dvd.value.path.Some? ==> !Reserved(p.dvd.value.path.value)
  }

  /** The caller does not ask for a reserved path. */
  ghost predicate KeepsAway(a: Action) {
    match a
    case Post(body) => body.Some? && body.value.dvdInboxPath.Some? ==> !Reserved(body.value.dvdInboxPath.value)
    case Serve(call) => call.PatchMedia? ==> forall i :: 0 <= i < |call.patches| ==> Allowed(call.patches[i])
    case _ => true
  }

  lemma PatchOnePath(id: Id, isDvd: bool, db: Tables, p: MediaPatch)
    requires PatchOne(id, isDvd, db, p).Ok?
    ensures PatchOne(id, isDvd, db, p).value.dvds ==
      if p.dvd.Some? && p.dvd.value.path.Some? then db.dvds[id := p.dvd.value.path.value] else db.dvds
  {
    var db1 := PatchRow(id, db, p).value;
    assert db1.dvds == db.dvds;
    var db2 := PatchLinks(id, db1, p).value;
    assert db2.dvds == db1.dvds;
  }

  lemma {:induction false} PatchesStayApart(id: Id, isDvd: bool, db: Tables, ps: seq<MediaPatch>)
    requires Fold((s, p) => PatchOne(id, isDvd, s, p), db, ps).Ok? && Apart(db.dvds)
    requires forall i :: 0 <= i < |ps| ==> Allowed(ps[i])
    ensures Apart(Fold((s, p) => PatchOne(id, isDvd, s, p), db, ps).value.dvds)
    decreases |ps|
  {
    if ps != [] {
      PatchOneTame(id, isDvd, db, ps[0]);
      PatchOnePath(id, isDvd, db, ps[0]);
      PatchesStayApart(id, isDvd, PatchOne(id, isDvd, db, ps[0]).value, ps[1..]);
    }
  }

  lemma PostStaysApart(db: Tables, b: NewMedia)
    requires LinksOk(db) && Apart(db.dvds) && PostTables(db, Some(b)).Ok? && !Reserved(b.dvdInboxPath.value)
    ensures Apart(PostTables(db, Some(b)).value.dvds)
  {
    PostExact(db, b);
  }

  /** Ingestion cannot collide, because a final path names its media. */
  lemma HandleStaysApart(db: Tables, state: Json, seen: bool, renamed: bool)
    requires Apart(db.dvds)
    ensures Apart(Handle(db, state, seen, renamed).0.dvds)
  {
    var m := if state.mediaId.Some? then state.mediaId.value else 0;
    if m in db.dvds {
      forall n | n in db.dvds && db.dvds[n] == FinalPath(m) ensures n == m {
        if db.dvds[n] == FinalPath(n) {
          FinalPathInjective(m, n);
        }
      }
    }
  }

  lemma CallStaysApart(db: Tables, rows: Rows, call: Call)
    requires Catalog.Ok(db) && Apart(db.dvds) && Perform(db, rows, call).Ok? && KeepsAway(Serve(call))
    ensures Apart(Perform(db, rows, call).value.dvds)
  {
    if call.PatchMedia? {
      PatchesStayApart(call.id, IsDvd(db, call.id), db, call.patches);
    } else if call.PostCard? || call.DeleteCard? || call.PatchCard? {
      CardCallsFair(db, rows, call);
    } else if !call.DeleteMedia? {
      KindCallsFair(db, rows, call);
    }
  }

  lemma NextStaysApart(w: World, a: Action)
    requires WorldInv(w) && Can(w, a) && KeepsAway(a) && Apart(w.db.dvds)
    ensures Apart(Next(w, a).db.dvds)
  {
    match a
    case Post(body) => PostStaysApart(w.db, body.value);
    case Serve(call) => CallStaysApart(w.db, TaskRows(w), call);
    case Lost(_) =>
    case Work(step, seen, renamed) =>
      if step.Commit? && CommitsIngestion(w, step.w) {
        HandleStaysApart(w.db, TaskRows(w)[w.sys.ctl[step.w].hold.task].state, seen, renamed);
      }
  }

  lemma StaysApartAt(ws: seq<World>, acts: seq<Action>, i: nat)
    requires IsHistory(ws, acts) && i < |acts| && KeepsAway(acts[i]) && Apart(ws[i].db.dvds)
    ensures Apart(ws[i + 1].db.dvds)
  {
    HistoryInv(ws, acts, i);
    assert NextAt(ws, acts, i);
    NextStaysApart(ws[i], acts[i]);
  }

  /** In every run whose callers keep away from reserved paths, no two DVDs are ever at the same path. */
  lemma {:induction false} NoSharedPath(ws: seq<World>, acts: seq<Action>, i: nat)
    requires IsHistory(ws, acts) && i < |ws| && Apart(ws[0].db.dvds)
    requires forall j :: 0 <= j < |acts| ==> KeepsAway(acts[j])
    ensures Apart(ws[i].db.dvds)
  {
    if i > 0 {
      NoSharedPath(ws, acts, i - 1);
      StaysApartAt(ws, acts, i - 1);
    }
  }

  // -------------------------------------------------------------- the exact condition

  /** Another DVD is already where the ingestion of `m` puts this one. */
  ghost predicate Occupied(dvds: map<Id, string>, m: Id) {
    m in dvds && exists n :: n in dvds && n != m && dvds[n] == FinalPath(m)
  }

  /** The commit of a successful ingestion onto an occupied path. */
  ghost predicate Collides(w: World, a: Action) {
    && a.Work? && a.step.Commit? && CommitsIngestion(w, a.step.w) && a.seen && a.renamed
    && var state := TaskRows(w)[w.sys.ctl[a.step.w].hold.task].state;
       Occupied(w.db.dvds, if state.mediaId.Some? then state.mediaId.value else 0)
  }

  lemma HandleCollides(db: Tables, state: Json, seen: bool, renamed: bool)
    requires PathsUnique(db.dvds)
    ensures PathsUnique(Handle(db, state, seen, renamed).0.dvds) <==>
      !(seen && renamed && Occupied(db.dvds, if state.mediaId.Some? then state.mediaId.value else 0))
  {
    var m := if state.mediaId.Some? then state.mediaId.value else 0;
    if seen && renamed && m in db.dvds {
      HandleKeepsUnique(db, m, state.rest);
    }
  }

  lemma CallKeepsUnique(db: Tables, rows: Rows, call: Call)
    requires Catalog.Ok(db) && PathsUnique(db.dvds) && Perform(db, rows, call).Ok?
    ensures PathsUnique(Perform(db, rows, call).value.dvds)
  {
    if call.PatchMedia? {
      PatchMediaKeepsOk(db, rows, call.id, call.patches);
    } else if call.PostCard? || call.DeleteCard? || call.PatchCard? {
      CardCallsFair(db, rows, call);
    } else if !call.DeleteMedia? {
      KindCallsFair(db, rows, call);
    }
  }

  /** Exactly one kind of action puts two DVDs at one path. */
  lemma NextCollides(w: World, a: Action)
    requires WorldInv(w) && Can(w, a) && PathsUnique(w.db.dvds)
    ensures PathsUnique(Next(w, a).db.dvds) <==> !Collides(w, a)
  {
    match a
    case Post(body) => PostExact(w.db, body.value);
    case Serve(call) => CallKeepsUnique(w.db, TaskRows(w), call);
    case Lost(_) =>
    case Work(step, seen, renamed) =>
      if step.Commit? && CommitsIngestion(w, step.w) {
        HandleCollides(w.db, TaskRows(w)[w.sys.ctl[step.w].hold.task].state, seen, renamed);
      }
  }

  ghost predicate UniqueAt(ws: seq<World>, i: nat)
    requires i < |ws|
  {
    PathsUnique(ws[i].db.dvds)
  }

  ghost predicate CollidesAt(ws: seq<World>, acts: seq<Action>, i: nat)
    requires i < |ws| && i < |acts|
  {
    Collides(ws[i], acts[i])
  }

  lemma CollisionAt(ws: seq<World>, acts: seq<Action>, i: nat)
    requires IsHistory(ws, acts) && i < |acts| && UniqueAt(ws, i)
    ensures UniqueAt(ws, i + 1) <==> !CollidesAt(ws, acts, i)
  {
    HistoryInv(ws, acts, i);
    assert NextAt(ws, acts, i);
    NextCollides(ws[i], acts[i]);
  }

  /** Over any history: paths stay distinct if and only if no ingestion is committed onto an occupied path. */
  lemma {:induction false} SharedPathExact(ws: seq<World>, acts: seq<Action>, i: nat)
    requires IsHistory(ws, acts) && i < |ws| && UniqueAt(ws, 0)
    ensures (forall k :: 0 <= k <= i ==> UniqueAt(ws, k)) <==> (forall k :: 0 <= k < i ==> !CollidesAt(ws, acts, k))
  {
    if i > 0 {
      SharedPathExact(ws, acts, i - 1);
      if UniqueAt(ws, i - 1) {
        CollisionAt(ws, acts, i - 1);
      }
    }
  }
}
