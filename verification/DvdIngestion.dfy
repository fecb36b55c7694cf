/** The database side of the DVD ingestion handler, and the paths it writes. */
module DvdIngestion {
  import opened Results
  import opened Catalog
  import opened TaskTable
  import opened MediaOps
  import opened Bytes
  import opened JsonDoc

  /** Bytes of ASCII text as characters. */
  function Letters(t: Text): (s: string)
    ensures |s| == |t| && forall i :: 0 <= i < |t| ==> s[i] as int == t[i]
  {
    seq(|t|, i requires 0 <= i < |t| => t[i] as char)
  }

  /** Where the handler moves the DVD of media `m`. */
  function FinalPath(m: Id): string {
    "media/dvd/" + Letters(Decimal(m))
  }

  lemma FinalPathInjective(m: Id, n: Id)
    requires FinalPath(m) == FinalPath(n)
    ensures m == n
  {
    var a, b := Letters(Decimal(m)), Letters(Decimal(n));
    assert a == FinalPath(m)[10..] && b == FinalPath(n)[10..];
    assert Decimal(m) == Decimal(n) by {
      assert forall i :: 0 <= i < |a| ==> a[i] as int == Decimal(m)[i] && b[i] as int == Decimal(n)[i];
    }
    DecimalDigits(m);
    DecimalDigits(n);
  }

  /**
   `Handle`.  It runs at read-committed level, so whether its SELECT saw the row (`seen`) says nothing about the row at commit; `renamed` is
   the outcome of the file system.  The UPDATE does not look at how many rows it matched.
   */
  function Handle(db: Tables, state: Json, seen: bool, renamed: bool): (Tables, HandlerResult) {
    var m := if state.mediaId.Some? then state.mediaId.value else 0;
    if !seen then (db, HandlerResult(None, Known(Failed), "failed to query media_dvds"))
    else if !renamed then (db, HandlerResult(None, Known(Failed), "failed to rename DVD path"))
    else (if m in db.dvds then db.(dvds := db.dvds[m := FinalPath(m)]) else db, HandlerResult(None, Known(Completed), ""))
  }

  lemma HandleKeepsOk(db: Tables, state: Json, seen: bool, renamed: bool)
    requires Catalog.Ok(db)
    ensures Catalog.Ok(Handle(db, state, seen, renamed).0)
  {
    var after := Handle(db, state, seen, renamed).0;
    assert LinksOk(after);
  }

  /** The handler makes two DVDs share a path exactly when another DVD is already where it moves this one. */
  lemma HandleKeepsUnique(db: Tables, m: Id, rest: string)
    requires PathsUnique(db.dvds) && m in db.dvds
    ensures PathsUnique(Handle(db, Json(Some(m), rest), true, true).0.dvds) <==>
      forall n :: n in db.dvds && n != m ==> db.dvds[n] != FinalPath(m)
  {
    var after := Handle(db, Json(Some(m), rest), true, true).0.dvds;
    assert after == db.dvds[m := FinalPath(m)];
    if n :| n in db.dvds && n != m && db.dvds[n] == FinalPath(m) {
      assert after[n] == after[m];
    }
  }

  /** Paths look like "media/dvd/12". */
  lemma FinalPathText()
    ensures FinalPath(7) == "media/dvd/7" && FinalPath(12) == "media/dvd/12"
  {
    assert Decimal(7) == [55] && Decimal(12) == [49, 50];
    assert Letters(Decimal(7)) == "7" && Letters(Decimal(12)) == "12";
  }

  /** What the handler returns and writes: success moves the DVD of its media, if that is still there, and nothing else changes. */
  lemma HandleExact(db: Tables, state: Json, seen: bool, renamed: bool)
    ensures var (after, r) := Handle(db, state, seen, renamed);
      && r.newState.None? && r.newStatus == Known(if seen && renamed then Completed else Failed)
      && after == db.(dvds := after.dvds) && after.dvds.Keys == db.dvds.Keys
      && forall m :: m in db.dvds ==>
           after.dvds[m] == if seen && renamed && (state.mediaId == Some(m) || (state.mediaId.None? && m == 0)) then FinalPath(m) else db.dvds[m]
  {
  }
}
