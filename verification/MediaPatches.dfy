/** What a patch list on a media amounts to: the last word on every field, and the last word on every link. */
module MediaPatches {
  import opened Results
  import opened Basics
  import opened Catalog
  import opened TaskTable
  import opened MediaOps
  import opened Folds

  function NoteField(p: MediaPatch): Option<Option<string>> { if p.note.Some? then Some(p.note) else None }

  /** Zero and an explicit clear both leave the media without a set. */
  function SetField(p: MediaPatch): Option<Option<Id>> {
    if p.clearMediaSetId == Some(true) || p.mediaSetId == Some(0) then Some(None)
    else if p.mediaSetId.Some? then Some(p.mediaSetId)
    else None
  }

  function PathField(p: MediaPatch): Option<string> { if p.dvd.Some? then p.dvd.value.path else None }

  /** What a patch says about the link to `card`. */
  function LinkField(card: Id, p: MediaPatch): Option<bool> {
    if p.addCardId == Some(card) then Some(true) else if p.removeCardId == Some(card) then Some(false) else None
  }

  /** The net effect of a patch list on media `id`, given what there was. */
  ghost predicate IsNet(db: Tables, after: Tables, id: Id, ps: seq<MediaPatch>)
    requires id in db.media
  {
    && id in after.media
    && after.media[id] == Media(LastSet(SetField, ps, db.media[id].mediaSetId), LastSet(NoteField, ps, db.media[id].note))
    && (id in db.dvds ==> id in after.dvds && after.dvds[id] == LastSet(PathField, ps, db.dvds[id]))
    && (forall c: Id :: (id, c) in after.mediaCards <==> LastSet(p => LinkField(c, p), ps, (id, c) in db.mediaCards))
  }

  /** One patch, field by field. */
  ghost predicate Stepped(a: Tables, b: Tables, id: Id, p: MediaPatch)
    requires id in a.media
  {
    && id in b.media
    && b.media[id] == Media(Or(SetField(p), a.media[id].mediaSetId), Or(NoteField(p), a.media[id].note))
    && (id in a.dvds ==> id in b.dvds && b.dvds[id] == Or(PathField(p), a.dvds[id]))
    && (forall c: Id :: (id, c) in b.mediaCards <==> Or(LinkField(c, p), (id, c) in a.mediaCards))
  }

  lemma RowSteps(id: Id, isDvd: bool, db: Tables, p: MediaPatch)
    requires id in db.media && PatchOne(id, isDvd, db, p).Ok? && p.addCardId.None? && p.removeCardId.None? && p.dvd.None?
    ensures Stepped(db, PatchOne(id, isDvd, db, p).value, id, p)
  {
    assert PatchOne(id, isDvd, db, p) == PatchRow(id, db, p);
    RowAlone(id, db, p);
  }

  /** A row patch alone: with one field set, two of its three statements do nothing. */
  lemma RowAlone(id: Id, db: Tables, p: MediaPatch)
    requires id in db.media && PatchRow(id, db, p).Ok? && FieldsSet(p) == 1 && p.addCardId.None? && p.removeCardId.None? && p.dvd.None?
    ensures Stepped(db, PatchRow(id, db, p).value, id, p)
  {
    var m := db.media[id];
    if p.note.Some? {
      RowSet(id, db, p, m.(note := p.note));
    } else {
      RowSet(id, db, p, m.(mediaSetId := SetField(p).value));
    }
  }

  lemma RowSet(id: Id, db: Tables, p: MediaPatch, m: Media)
    requires id in db.media && p.addCardId.None? && p.removeCardId.None? && p.dvd.None?
    requires m == Media(Or(SetField(p), db.media[id].mediaSetId), Or(NoteField(p), db.media[id].note))
    ensures Stepped(db, SetMedia(db, id, m), id, p)
  {
  }

  lemma LinkSteps(id: Id, isDvd: bool, db: Tables, p: MediaPatch)
    requires id in db.media && PatchOne(id, isDvd, db, p).Ok? && (p.addCardId.Some? || p.removeCardId.Some?)
    ensures Stepped(db, PatchOne(id, isDvd, db, p).value, id, p)
  {
  }

  lemma DvdSteps(id: Id, isDvd: bool, db: Tables, p: MediaPatch)
    requires id in db.media && PatchOne(id, isDvd, db, p).Ok? && p.dvd.Some?
    ensures Stepped(db, PatchOne(id, isDvd, db, p).value, id, p)
  {
  }

  lemma OneSteps(id: Id, isDvd: bool, db: Tables, p: MediaPatch)
    requires id in db.media && PatchOne(id, isDvd, db, p).Ok?
    ensures Stepped(db, PatchOne(id, isDvd, db, p).value, id, p)
  {
    if p.dvd.Some? {
      DvdSteps(id, isDvd, db, p);
    } else if p.addCardId.Some? || p.removeCardId.Some? {
      LinkSteps(id, isDvd, db, p);
    } else {
      RowSteps(id, isDvd, db, p);
    }
  }

  lemma NetSnoc(db: Tables, mid: Tables, after: Tables, id: Id, ps: seq<MediaPatch>, p: MediaPatch)
    requires id in db.media && IsNet(db, mid, id, ps) && Stepped(mid, after, id, p)
    ensures IsNet(db, after, id, ps + [p])
  {
    LastSetSnoc(SetField, ps, p, db.media[id].mediaSetId);
    LastSetSnoc(NoteField, ps, p, db.media[id].note);
    if id in db.dvds {
      LastSetSnoc(PathField, ps, p, db.dvds[id]);
    }
    forall c: Id ensures (id, c) in after.mediaCards <==> LastSet(q => LinkField(c, q), ps + [p], (id, c) in db.mediaCards) {
      LastSetSnoc(q => LinkField(c, q), ps, p, (id, c) in db.mediaCards);
    }
  }

  lemma {:induction false} FoldIsNet(db: Tables, id: Id, isDvd: bool, ps: seq<MediaPatch>)
    requires id in db.media && Fold((s, p) => PatchOne(id, isDvd, s, p), db, ps).Ok?
    ensures IsNet(db, Fold((s, p) => PatchOne(id, isDvd, s, p), db, ps).value, id, ps)
    decreases |ps|
  {
    var f := (s, p) => PatchOne(id, isDvd, s, p);
    if ps != [] {
      var n := |ps| - 1;
      FoldSnoc(f, db, ps, n);
      assert ps[..n + 1] == ps && ps == ps[..n] + [ps[n]];
      FoldIsNet(db, id, isDvd, ps[..n]);
      var mid := Fold(f, db, ps[..n]).value;
      OneSteps(id, isDvd, mid, ps[n]);
      NetSnoc(db, mid, Fold(f, db, ps).value, id, ps[..n], ps[n]);
    }
  }

  // ------------------------------------------------------------ which lists succeed

  /** Whether `card` is linked once the patches `before` have been applied. */
  function Linked(db: Tables, id: Id, before: seq<MediaPatch>, card: Id): bool {
    LastSet(p => LinkField(card, p), before, (id, card) in db.mediaCards)
  }

  predicate PathFree(dvds: map<Id, string>, id: Id, path: string) {
    forall m :: m in dvds && m != id ==> dvds[m] != path
  }

  predicate DvdAcceptable(db: Tables, id: Id, d: DvdPatch) {
    IsDvd(db, id) && d.path.Some? && d.path.value != "" && PathFree(db.dvds, id, d.path.value)
  }

  /** A patch that succeeds after the patches `before`, judged on the tables before any of them. */
  predicate Acceptable(db: Tables, id: Id, before: seq<MediaPatch>, p: MediaPatch) {
    && FieldsSet(p) == 1
    && (p.mediaSetId.Some? ==> p.mediaSetId.value == 0 || p.mediaSetId.value in db.mediaSets)
    && (p.addCardId.Some? ==> p.addCardId.value in db.cards && !Linked(db, id, before, p.addCardId.value))
    && (p.removeCardId.Some? ==> Linked(db, id, before, p.removeCardId.value))
    && (p.dvd.Some? ==> DvdAcceptable(db, id, p.dvd.value))
  }

  lemma DvdAccepted(db: Tables, mid: Tables, id: Id, d: DvdPatch)
    requires Tame(db, mid, id)
    ensures PatchDvd(mid, id, IsDvd(db, id), Some(d)).Ok? <==> DvdAcceptable(db, id, d)
  {
    if d.path.Some? {
      var path := d.path.value;
      assert PathFree(db.dvds, id, path) <==> !exists m :: m in mid.dvds && m != id && mid.dvds[m] == path;
    }
  }

  lemma OneAccepted(db: Tables, mid: Tables, id: Id, before: seq<MediaPatch>, p: MediaPatch)
    requires id in db.media && IsNet(db, mid, id, before) && Tame(db, mid, id)
    ensures PatchOne(id, IsDvd(db, id), mid, p).Ok? <==> Acceptable(db, id, before, p)
  {
    if FieldsSet(p) == 1 {
      if p.dvd.Some? {
        DvdAccepted(db, mid, id, p.dvd.value);
      } else if p.addCardId.Some? {
        assert (id, p.addCardId.value) in mid.mediaCards <==> Linked(db, id, before, p.addCardId.value);
      } else if p.removeCardId.Some? {
        assert (id, p.removeCardId.value) in mid.mediaCards <==> Linked(db, id, before, p.removeCardId.value);
      }
    }
  }

  ghost predicate AllAcceptable(db: Tables, id: Id, ps: seq<MediaPatch>) {
    forall i :: 0 <= i < |ps| ==> Acceptable(db, id, ps[..i], ps[i])
  }

  lemma AllButLast(db: Tables, id: Id, ps: seq<MediaPatch>)
    requires ps != []
    ensures var n := |ps| - 1;
      AllAcceptable(db, id, ps) <==> AllAcceptable(db, id, ps[..n]) && Acceptable(db, id, ps[..n], ps[n])
  {
    var n := |ps| - 1;
    assert forall i :: 0 <= i < n ==> ps[..n][..i] == ps[..i];
  }

  lemma {:induction false} FoldAccepted(db: Tables, id: Id, ps: seq<MediaPatch>)
    requires id in db.media
    ensures Fold((s, p) => PatchOne(id, IsDvd(db, id), s, p), db, ps).Ok? <==> AllAcceptable(db, id, ps)
    decreases |ps|
  {
    var f := (s, p) => PatchOne(id, IsDvd(db, id), s, p);
    if ps != [] {
      var n := |ps| - 1;
      FoldSnoc(f, db, ps, n);
      assert ps[..n + 1] == ps;
      FoldAccepted(db, id, ps[..n]);
      AllButLast(db, id, ps);
      if Fold(f, db, ps[..n]).Ok? {
        FoldIsNet(db, id, IsDvd(db, id), ps[..n]);
        FoldTame(id, IsDvd(db, id), db, ps[..n]);
        OneAccepted(db, Fold(f, db, ps[..n]).value, id, ps[..n], ps[n]);
      }
    }
  }

  /**
   Exactly which patch lists succeed on a readable media, judged on the tables before any patch; and what they leave: the last word on
   note, set, path and each link, with no other media changed.
   */
  lemma PatchMediaExact(db: Tables, rows: Rows, id: Id, ps: seq<MediaPatch>)
    requires GetMedia(db, rows, id).Ok? && id != 0
    ensures PatchMedia(db, rows, id, ps).Ok? <==> AllAcceptable(db, id, ps)
    ensures PatchMedia(db, rows, id, ps).Ok? ==>
      IsNet(db, PatchMedia(db, rows, id, ps).value, id, ps) && Tame(db, PatchMedia(db, rows, id, ps).value, id)
  {
    FoldAccepted(db, id, ps);
    if PatchMedia(db, rows, id, ps).Ok? {
      FoldIsNet(db, id, IsDvd(db, id), ps);
      FoldTame(id, IsDvd(db, id), db, ps);
    }
  }

  // ------------------------------------------------------------------------ errors

  /** A patch that asks for something already there: a link of an existing card, or the path of another DVD. */
  predicate Clashes(db: Tables, id: Id, before: seq<MediaPatch>, p: MediaPatch) {
    || (p.addCardId.Some? && p.addCardId.value in db.cards && Linked(db, id, before, p.addCardId.value))
    || (p.dvd.Some? && IsDvd(db, id) && p.dvd.value.path.Some? && p.dvd.value.path.value != ""
        && !PathFree(db.dvds, id, p.dvd.value.path.value))
  }

  lemma DvdError(db: Tables, mid: Tables, id: Id, p: MediaPatch)
    requires Tame(db, mid, id) && p.dvd.Some? && PatchDvd(mid, id, IsDvd(db, id), p.dvd).Err?
    ensures PatchDvd(mid, id, IsDvd(db, id), p.dvd).error ==
      if IsDvd(db, id) && p.dvd.value.path.Some? && p.dvd.value.path.value != "" && !PathFree(db.dvds, id, p.dvd.value.path.value)
      then AlreadyExists else BadRequest
  {
    DvdAccepted(db, mid, id, p.dvd.value);
    if p.dvd.value.path.Some? {
      var path := p.dvd.value.path.value;
      assert PathFree(db.dvds, id, path) <==> !exists m :: m in mid.dvds && m != id && mid.dvds[m] == path;
    }
  }

  lemma SingleError(db: Tables, mid: Tables, id: Id, before: seq<MediaPatch>, p: MediaPatch)
    requires id in db.media && IsNet(db, mid, id, before) && Tame(db, mid, id) && FieldsSet(p) == 1
    requires PatchOne(id, IsDvd(db, id), mid, p).Err?
    ensures PatchOne(id, IsDvd(db, id), mid, p) == Err(if Clashes(db, id, before, p) then AlreadyExists else BadRequest)
  {
    if p.dvd.Some? {
      DvdError(db, mid, id, p);
    } else if p.addCardId.Some? {
      assert (id, p.addCardId.value) in mid.mediaCards <==> Linked(db, id, before, p.addCardId.value);
    }
  }

  /** The first patch of a list that is not acceptable, and its error. */
  ghost predicate FailsAt(db: Tables, id: Id, ps: seq<MediaPatch>, i: nat, e: ApiError)
    requires i < |ps|
  {
    && AllAcceptable(db, id, ps[..i]) && !Acceptable(db, id, ps[..i], ps[i])
    && (FieldsSet(ps[i]) == 1 ==> e == if Clashes(db, id, ps[..i], ps[i]) then AlreadyExists else BadRequest)
    && (FieldsSet(ps[i]) == 0 ==> e == BadRequest)
  }

  lemma {:induction false} FoldError(db: Tables, id: Id, ps: seq<MediaPatch>) returns (i: nat)
    requires id in db.media && Fold((s, p) => PatchOne(id, IsDvd(db, id), s, p), db, ps).Err?
    ensures i < |ps| && FailsAt(db, id, ps, i, Fold((s, p) => PatchOne(id, IsDvd(db, id), s, p), db, ps).error)
    decreases |ps|
  {
    var f := (s, p) => PatchOne(id, IsDvd(db, id), s, p);
    var n := |ps| - 1;
    FoldSnoc(f, db, ps, n);
    assert ps[..n + 1] == ps;
    if Fold(f, db, ps[..n]).Err? {
      i := FoldError(db, id, ps[..n]);
      assert ps[..n][..i] == ps[..i] && ps[..n][i] == ps[i];
    } else {
      i := n;
      FoldAccepted(db, id, ps[..n]);
      FoldIsNet(db, id, IsDvd(db, id), ps[..n]);
      FoldTame(id, IsDvd(db, id), db, ps[..n]);
      var mid := Fold(f, db, ps[..n]).value;
      OneAccepted(db, mid, id, ps[..n], ps[n]);
      if FieldsSet(ps[n]) == 1 {
        SingleError(db, mid, id, ps[..n], ps[n]);
      }
    }
  }

  /** Which error a patch list gets: that of reading the record, or that of its first patch that is not acceptable. */
  lemma PatchMediaErrors(db: Tables, rows: Rows, id: Id, ps: seq<MediaPatch>)
    requires PatchMedia(db, rows, id, ps).Err?
    ensures id == 0 ==> PatchMedia(db, rows, id, ps) == Err(BadRequest)
    ensures id != 0 && GetMedia(db, rows, id).Err? ==> PatchMedia(db, rows, id, ps).error == GetMedia(db, rows, id).error
    ensures id != 0 && GetMedia(db, rows, id).Ok? ==>
      exists i :: 0 <= i < |ps| && FailsAt(db, id, ps, i, PatchMedia(db, rows, id, ps).error)
  {
    if id != 0 && GetMedia(db, rows, id).Ok? {
      var i := FoldError(db, id, ps);
    }
  }
}
