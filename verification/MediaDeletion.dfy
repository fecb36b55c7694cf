/**
 Deleting a media row: its DVD row and its links go by cascade, and a trigger on the DVD row deletes the media row again.  The order in
 which the database fires these is left open.
 */
module MediaDeletion {
  import opened Results
  import opened Basics
  import opened Catalog
  import MediaOps

  /** One pending DELETE. */
  datatype Req =
    | DelMedia(id: Id)       // from the caller, or from the trigger
    | DelDvd(id: Id)         // cascade from the media row
    | DelLinks(media: Id)    // cascade from the media row

  /** One DELETE, and the ones it sets off. */
  function Fire(db: Tables, r: Req): (Tables, set<Req>) {
    match r
    case DelMedia(m) =>
      if m !in db.media then (db, {}) else (db.(media := Without(db.media, {m})), {DelDvd(m), DelLinks(m)})
    case DelDvd(m) =>
      if m !in db.dvds then (db, {}) else (db.(dvds := Without(db.dvds, {m})), {DelMedia(m)})
    case DelLinks(m) =>
      (db.(mediaCards := set p | p in db.mediaCards && p.0 != m), {})
  }

  /** Only rows of media `x` are gone or due to go. */
  ghost predicate Sound(before: Tables, db: Tables, x: Id, todo: set<Req>) {
    && db == before.(media := db.media, dvds := db.dvds, mediaCards := db.mediaCards)
    && (db.media == before.media || db.media == Without(before.media, {x}))
    && (db.dvds == before.dvds || db.dvds == Without(before.dvds, {x}))
    && (db.mediaCards == before.mediaCards || db.mediaCards == set p | p in before.mediaCards && p.0 != x)
    && todo <= {DelMedia(x), DelDvd(x), DelLinks(x)}
  }

  /** Whatever of media `x` is still there, some pending request leads to it. */
  ghost predicate Progress(db: Tables, x: Id, todo: set<Req>) {
    && (x in db.media ==> DelMedia(x) in todo)
    && (x in db.dvds ==> x in db.media || DelDvd(x) in todo)
    && (forall p :: p in db.mediaCards && p.0 == x ==> x in db.media || DelLinks(x) in todo)
  }

  ghost predicate Invariant(before: Tables, db: Tables, x: Id, todo: set<Req>) {
    Sound(before, db, x, todo) && Progress(db, x, todo)
  }

  lemma FireKeepsInvariant(before: Tables, db: Tables, x: Id, todo: set<Req>, r: Req)
    requires Invariant(before, db, x, todo) && r in todo
    ensures var (after, more) := Fire(db, r); Invariant(before, after, x, todo - {r} + more)
  {
    match r
    case DelMedia(m) => FireMedia(before, db, x, todo);
    case DelDvd(m) => FireDvd(before, db, x, todo);
    case DelLinks(m) => FireLinks(before, db, x, todo);
  }

  lemma WithoutOnce<V>(m: map<Id, V>, id: Id)
    ensures Without(Without(m, {id}), {id}) == Without(m, {id}) && id !in Without(m, {id})
    ensures id !in m ==> Without(m, {id}) == m
  {
  }

  lemma FireMedia(before: Tables, db: Tables, x: Id, todo: set<Req>)
    requires Invariant(before, db, x, todo) && DelMedia(x) in todo
    ensures var (after, more) := Fire(db, DelMedia(x)); Invariant(before, after, x, todo - {DelMedia(x)} + more)
  {
    WithoutOnce(before.media, x);
  }

  lemma FireDvd(before: Tables, db: Tables, x: Id, todo: set<Req>)
    requires Invariant(before, db, x, todo) && DelDvd(x) in todo
    ensures var (after, more) := Fire(db, DelDvd(x)); Invariant(before, after, x, todo - {DelDvd(x)} + more)
  {
    WithoutOnce(before.dvds, x);
  }

  lemma FireLinks(before: Tables, db: Tables, x: Id, todo: set<Req>)
    requires Invariant(before, db, x, todo) && DelLinks(x) in todo
    ensures var (after, more) := Fire(db, DelLinks(x)); Invariant(before, after, x, todo - {DelLinks(x)} + more)
  {
    var after := Fire(db, DelLinks(x)).0;
    assert after.mediaCards == set p | p in before.mediaCards && p.0 != x;
  }

  /** When nothing is pending, exactly the media row, its DVD row and its links are gone. */
  lemma DoneIsExact(before: Tables, db: Tables, x: Id)
    requires x != 0 && x in before.media && Invariant(before, db, x, {})
    ensures MediaOps.DeleteMedia(before, x) == Result.Ok(db)
  {
    assert x !in db.media && x !in db.dvds;
    WithoutOnce(before.media, x);
    WithoutOnce(before.dvds, x);
    assert db.mediaCards == set p | p in before.mediaCards && p.0 != x;
  }

  /** The rows that can set off further deletions. */
  function RowCount(db: Tables): nat {
    |db.media| + |db.dvds|
  }

  /** A DELETE that sets others off removes a row, so the cascade ends although cascade and trigger call each other. */
  lemma FireShrinks(db: Tables, r: Req, todo: set<Req>)
    requires r in todo
    ensures var (after, more) := Fire(db, r);
      RowCount(after) < RowCount(db) || (RowCount(after) == RowCount(db) && |todo - {r} + more| < |todo|)
  {
    match r {
      case DelMedia(m) => if m in db.media { WithoutShrinks(db.media, {m}, m); }
      case DelDvd(m) => if m in db.dvds { WithoutShrinks(db.dvds, {m}, m); }
      case DelLinks(m) =>
    }
    assert todo - {r} + {} == todo - {r};
  }
}
