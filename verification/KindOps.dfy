/** Movie edition kinds, of which at most one is the default. */
module KindOps {
  import opened Results
  import opened Basics
  import opened Catalog
  import opened Folds
  import CardOps

  type Kinds = map<Id, Kind>

  /** The partial unique index: a statement that leaves two defaults is rejected. */
  function Indexed(kinds: Kinds): Result<Kinds, ApiError> {
    if OneDefault(kinds) then Result.Ok(kinds) else Err(Internal)
  }

  function Unset(kinds: Kinds): Kinds {
    map k | k in kinds :: kinds[k].(isDefault := false)
  }

  function Mark(kinds: Kinds, id: Id, b: bool): Kinds {
    if id in kinds then kinds[id := kinds[id].(isDefault := b)] else kinds
  }

  function Rename(kinds: Kinds, id: Id, name: string): Kinds {
    if id in kinds then kinds[id := kinds[id].(name := name)] else kinds
  }

  // ------------------------------------------------------------- create and delete

  predicate KindNameTaken(kinds: Kinds, name: string) {
    exists k :: k in kinds && CardOps.Lower(kinds[k].name) == CardOps.Lower(name)
  }

  /** Some kind has this name up to case. */
  predicate KindNamed(kinds: Kinds, name: string) {
    exists k :: k in kinds && CardOps.SameName(kinds[k].name, name)
  }

  lemma KindNameTakenExact(kinds: Kinds, name: string)
    ensures KindNameTaken(kinds, name) <==> KindNamed(kinds, name)
  {
    forall k | k in kinds ensures CardOps.Lower(kinds[k].name) == CardOps.Lower(name) <==> CardOps.SameName(kinds[k].name, name) {
      CardOps.LowerExact(kinds[k].name, name);
    }
  }

  function PostKind(db: Tables, name: string, wanted: Option<bool>): Result<Tables, ApiError> {
    var isDefault := wanted == Some(true);
    if name == "" then Err(BadRequest)
    else if KindNameTaken(db.kinds, name) then Err(AlreadyExists)
    else
      match Indexed(if isDefault then Unset(db.kinds) else db.kinds)
      case Err(e) => Err(e)
      case Ok(cleared) =>
        match Indexed(cleared[db.nextKind := Kind(name, isDefault)])
        case Err(e) => Err(e)
        case Ok(kinds) => Result.Ok(db.(kinds := kinds, nextKind := db.nextKind + 1))
  }

  /** Refused while an edition refers to the kind. */
  function DeleteKind(db: Tables, id: Id): Result<Tables, ApiError> {
    if id == 0 then Err(BadRequest)
    else if id !in db.kinds then Err(NotFound)
    else if exists e :: e in db.editions && db.editions[e].kindId == id then Err(Internal)
    else Result.Ok(db.(kinds := Without(db.kinds, {id})))
  }

  /** A new kind beside the old ones; if it is the default, none of them is any more. */
  ghost predicate Added(before: Kinds, after: Kinds, id: Id, kind: Kind) {
    && after.Keys == before.Keys + {id} && id !in before && after[id] == kind
    && forall k :: k in before ==> after[k] == before[k].(isDefault := before[k].isDefault && !kind.isDefault)
  }

  lemma UnsetThenAdd(kinds: Kinds, id: Id, kind: Kind)
    requires OneDefault(kinds) && id !in kinds
    ensures var cleared := if kind.isDefault then Unset(kinds) else kinds;
      OneDefault(cleared) && OneDefault(cleared[id := kind]) && Added(kinds, cleared[id := kind], id, kind)
  {
  }

  lemma MoreKindsKeepOk(db: Tables, kinds: Kinds, kind: Kind)
    requires Catalog.Ok(db) && OneDefault(kinds) && Added(db.kinds, kinds, db.nextKind, kind)
    ensures Catalog.Ok(db.(kinds := kinds, nextKind := db.nextKind + 1))
  {
  }

  /** Exactly what creating a kind does: the index never rejects it, and only an empty or taken name does. */
  lemma PostKindExact(db: Tables, name: string, wanted: Option<bool>)
    requires KindsOk(db)
    ensures PostKind(db, name, wanted).Ok? <==> name != "" && !KindNamed(db.kinds, name)
    ensures PostKind(db, name, wanted) != Err(Internal)
    ensures PostKind(db, name, wanted).Ok? ==>
      var after := PostKind(db, name, wanted).value;
      && after == db.(kinds := after.kinds, nextKind := db.nextKind + 1)
      && OneDefault(after.kinds) && Added(db.kinds, after.kinds, db.nextKind, Kind(name, wanted == Some(true)))
  {
    KindNameTakenExact(db.kinds, name);
    UnsetThenAdd(db.kinds, db.nextKind, Kind(name, wanted == Some(true)));
  }

  lemma PostKindKeepsOk(db: Tables, name: string, wanted: Option<bool>)
    requires Catalog.Ok(db) && PostKind(db, name, wanted).Ok?
    ensures Catalog.Ok(PostKind(db, name, wanted).value)
  {
    PostKindExact(db, name, wanted);
    MoreKindsKeepOk(db, PostKind(db, name, wanted).value.kinds, Kind(name, wanted == Some(true)));
  }

  /** A kind can be deleted exactly when no edition refers to it; then it alone goes, and the invariants stay. */
  lemma DeleteKindKeepsOk(db: Tables, id: Id)
    requires Catalog.Ok(db)
    ensures DeleteKind(db, id).Ok? <==> id != 0 && id in db.kinds && forall e :: e in db.editions ==> db.editions[e].kindId != id
    ensures DeleteKind(db, id).Ok? ==>
      var after := DeleteKind(db, id).value;
      && Catalog.Ok(after) && after == db.(kinds := after.kinds)
      && id !in after.kinds && db.kinds == after.kinds[id := db.kinds[id]]
  {
  }

  // ----------------------------------------------------------------------- patch

  datatype KindPatch = KindPatch(name: Option<string>, isDefault: Option<bool>)

  function Renamed(kinds: Kinds, id: Id, p: KindPatch): Kinds {
    if p.name.Some? then Rename(kinds, id, p.name.value) else kinds
  }

  function Cleared(kinds: Kinds, id: Id, p: KindPatch): Kinds {
    if p.isDefault == Some(true) then Unset(Renamed(kinds, id, p)) else Renamed(kinds, id, p)
  }

  function Marked(kinds: Kinds, id: Id, p: KindPatch): Kinds {
    if p.isDefault.Some? then Mark(Cleared(kinds, id, p), id, p.isDefault.value) else Cleared(kinds, id, p)
  }

  /** The body of the loop: rename, clear, mark, each statement checked against the index; then the two counters. */
  function PatchOne(id: Id, kinds: Kinds, p: KindPatch): Result<Kinds, ApiError> {
    if !OneDefault(Renamed(kinds, id, p)) || !OneDefault(Cleared(kinds, id, p)) || !OneDefault(Marked(kinds, id, p)) then Err(Internal)
    else if p.name.Some? == p.isDefault.Some? then Err(BadRequest)
    else if id !in kinds then Err(NotFound)
    else Result.Ok(Marked(kinds, id, p))
  }

  function PatchKind(kinds: Kinds, id: Id, patches: seq<KindPatch>): Result<Kinds, ApiError> {
    if id == 0 then Err(BadRequest) else
      match Fold((k, p) => PatchOne(id, k, p), kinds, patches)
      case Err(e) => Err(e)
      case Ok(after) => if id in after then Result.Ok(after) else Err(NotFound)
  }

  /** After every statement of a patch at most one kind is default, so the index never rejects one. */
  lemma IndexIsSilent(id: Id, kinds: Kinds, p: KindPatch)
    requires OneDefault(kinds)
    ensures OneDefault(Renamed(kinds, id, p)) && OneDefault(Cleared(kinds, id, p)) && OneDefault(Marked(kinds, id, p))
    ensures PatchOne(id, kinds, p) != Err(Internal)
  {
  }

  function NameField(p: KindPatch): Option<string> { p.name }
  function DefaultField(p: KindPatch): Option<bool> { p.isDefault }

  predicate SomeTrue(ps: seq<KindPatch>) {
    exists i :: 0 <= i < |ps| && ps[i].isDefault == Some(true)
  }

  /** What a patch list should leave behind: the last word on the target, and no other default once someone claimed it. */
  function Patched(kinds: Kinds, id: Id, ps: seq<KindPatch>): Kinds {
    map k | k in kinds ::
      if k == id then Kind(LastSet(NameField, ps, kinds[k].name), LastSet(DefaultField, ps, kinds[k].isDefault))
      else kinds[k].(isDefault := kinds[k].isDefault && !SomeTrue(ps))
  }

  lemma SomeTrueSnoc(ps: seq<KindPatch>, p: KindPatch)
    ensures SomeTrue(ps + [p]) <==> SomeTrue(ps) || p.isDefault == Some(true)
  {
    var qs := ps + [p];
    if SomeTrue(ps) {
      var i :| 0 <= i < |ps| && ps[i].isDefault == Some(true);
      assert qs[i].isDefault == Some(true);
    }
    if p.isDefault == Some(true) {
      assert qs[|ps|].isDefault == Some(true);
    }
  }

  lemma PatchedStep(kinds: Kinds, id: Id, ps: seq<KindPatch>, p: KindPatch)
    requires p.name.Some? != p.isDefault.Some?
    ensures Marked(Patched(kinds, id, ps), id, p) == Patched(kinds, id, ps + [p])
  {
    SomeTrueSnoc(ps, p);
    if id in kinds {
      LastSetSnoc(NameField, ps, p, kinds[id].name);
      LastSetSnoc(DefaultField, ps, p, kinds[id].isDefault);
    }
  }

  lemma {:induction false} FoldIsPatched(kinds: Kinds, id: Id, ps: seq<KindPatch>)
    requires OneDefault(kinds)
    ensures var r := Fold((k, p) => PatchOne(id, k, p), kinds, ps);
      && r != Err(Internal)
      && (r.Ok? ==> OneDefault(r.value) && r.value == Patched(kinds, id, ps))
    decreases |ps|
  {
    var f := (k, p) => PatchOne(id, k, p);
    if ps == [] {
      assert Patched(kinds, id, ps) == kinds;
    } else {
      var n := |ps| - 1;
      FoldIsPatched(kinds, id, ps[..n]);
      FoldSnoc(f, kinds, ps, n);
      assert ps[..n + 1] == ps && ps == ps[..n] + [ps[n]];
      var r := Fold(f, kinds, ps[..n]);
      if r.Ok? {
        IndexIsSilent(id, r.value, ps[n]);
        if PatchOne(id, r.value, ps[n]).Ok? {
          PatchedStep(kinds, id, ps[..n], ps[n]);
        }
      }
    }
  }

  /**
   A patch list on a kind: the index never rejects; success means the kind existed and the outcome is exactly `Patched`.  In particular the
   target is default iff the last IsDefault patch says so, and other defaults are cleared iff some IsDefault patch is true.
   */
  lemma PatchKindExact(kinds: Kinds, id: Id, ps: seq<KindPatch>)
    requires OneDefault(kinds)
    ensures PatchKind(kinds, id, ps) != Err(Internal)
    ensures PatchKind(kinds, id, ps).Ok? ==>
      && id in kinds && PatchKind(kinds, id, ps).value == Patched(kinds, id, ps)
      && OneDefault(PatchKind(kinds, id, ps).value)
  {
    FoldIsPatched(kinds, id, ps);
  }

  lemma PatchedKeepsOk(db: Tables, id: Id, ps: seq<KindPatch>)
    requires Catalog.Ok(db) && OneDefault(Patched(db.kinds, id, ps))
    ensures Catalog.Ok(db.(kinds := Patched(db.kinds, id, ps)))
  {
  }

  /** Exactly the lists that succeed: each patch sets exactly one field, and the kind exists. */
  lemma {:induction false} PatchKindSucceeds(kinds: Kinds, id: Id, ps: seq<KindPatch>)
    requires OneDefault(kinds) && id != 0
    ensures PatchKind(kinds, id, ps).Ok? <==>
      id in kinds && forall i :: 0 <= i < |ps| ==> ps[i].name.Some? != ps[i].isDefault.Some?
    decreases |ps|
  {
    if ps != [] {
      IndexIsSilent(id, kinds, ps[0]);
      if PatchOne(id, kinds, ps[0]).Ok? {
        PatchKindSucceeds(Marked(kinds, id, ps[0]), id, ps[1..]);
        assert forall i :: 1 <= i < |ps| ==> ps[i] == ps[1..][i - 1];
      }
    }
  }

  // ---------------------------------------------------------------------- errors

  /** Which error a failing creation, deletion or patch list gets. */
  lemma PostKindErrors(db: Tables, name: string, wanted: Option<bool>)
    requires KindsOk(db) && PostKind(db, name, wanted).Err?
    ensures PostKind(db, name, wanted) == Err(if name == "" then BadRequest else AlreadyExists)
  {
    PostKindExact(db, name, wanted);
  }

  lemma DeleteKindErrors(db: Tables, id: Id)
    requires DeleteKind(db, id).Err?
    ensures DeleteKind(db, id) == Err(if id == 0 then BadRequest else if id !in db.kinds then NotFound else Internal)
  {
  }

  predicate OneField(p: KindPatch) {
    p.name.Some? != p.isDefault.Some?
  }

  lemma {:induction false} FoldErrors(kinds: Kinds, id: Id, ps: seq<KindPatch>)
    requires OneDefault(kinds) && id in kinds && Fold((k, p) => PatchOne(id, k, p), kinds, ps).Err?
    ensures Fold((k, p) => PatchOne(id, k, p), kinds, ps) == Err(BadRequest)
    decreases |ps|
  {
    IndexIsSilent(id, kinds, ps[0]);
    if PatchOne(id, kinds, ps[0]).Ok? {
      FoldErrors(Marked(kinds, id, ps[0]), id, ps[1..]);
    }
  }

  /** A missing kind is reported unless the request is malformed first: a zero id, or a first patch that does not set exactly one field. */
  lemma PatchKindErrors(kinds: Kinds, id: Id, ps: seq<KindPatch>)
    requires OneDefault(kinds) && PatchKind(kinds, id, ps).Err?
    ensures PatchKind(kinds, id, ps) ==
      Err(if id != 0 && id !in kinds && (ps == [] || OneField(ps[0])) then NotFound else BadRequest)
  {
    if id != 0 && id in kinds {
      if Fold((k, p) => PatchOne(id, k, p), kinds, ps).Err? {
        FoldErrors(kinds, id, ps);
      } else {
        FoldIsPatched(kinds, id, ps);
      }
    } else if id != 0 && ps != [] {
      IndexIsSilent(id, kinds, ps[0]);
    }
  }
}
