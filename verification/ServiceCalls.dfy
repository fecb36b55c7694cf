/** The calls of the catalog and media services that touch only the services' own tables, each one transaction. */
module ServiceCalls {
  import opened Results
  import opened Catalog
  import opened MediaOps
  import TaskTable
  import CardDeletion
  import CardOps
  import KindOps

  datatype Call =
    | DeleteMedia(id: Id)
    | PatchMedia(id: Id, patches: seq<MediaPatch>)
    | PostCard(card: Option<CardOps.NewCard>)
    | DeleteCard(id: Id)
    | PatchCard(id: Id, cardPatches: seq<CardOps.CardPatch>)
    | PostKind(name: string, wanted: Option<bool>)
    | DeleteKind(id: Id)
    | PatchKind(id: Id, kindPatches: seq<KindOps.KindPatch>)

  function DeleteCardTables(db: Tables, id: Id): Result<Tables, ApiError> {
    if id == 0 then Err(BadRequest)
    else if id !in db.cards then Err(NotFound)
    else Result.Ok(CardDeletion.DropCards(db, CardDeletion.Closure(db, id)))
  }

  function PatchKindTables(db: Tables, id: Id, ps: seq<KindOps.KindPatch>): Result<Tables, ApiError> {
    match KindOps.PatchKind(db.kinds, id, ps)
    case Err(e) => Err(e)
    case Ok(kinds) => Result.Ok(db.(kinds := kinds))
  }

  /** The tables a call leaves behind, or its error, after which they are as before. */
  function Perform(db: Tables, rows: TaskTable.Rows, call: Call): Result<Tables, ApiError> {
    match call
    case DeleteMedia(id) => MediaOps.DeleteMedia(db, id)
    case PatchMedia(id, ps) => MediaOps.PatchMedia(db, rows, id, ps)
    case PostCard(card) => CardOps.PostCard(db, card)
    case DeleteCard(id) => DeleteCardTables(db, id)
    case PatchCard(id, ps) => CardOps.PatchCard(db, id, ps)
    case PostKind(name, wanted) => KindOps.PostKind(db, name, wanted)
    case DeleteKind(id) => KindOps.DeleteKind(db, id)
    case PatchKind(id, ps) => PatchKindTables(db, id, ps)
  }

  /** What a call owes to the rest of the system. */
  ghost predicate Fair(db: Tables, after: Tables) {
    Catalog.Ok(after) && after.media.Keys <= db.media.Keys && after.nextMedia == db.nextMedia
  }

  lemma MediaCallsFair(db: Tables, rows: TaskTable.Rows, call: Call)
    requires Catalog.Ok(db) && (call.DeleteMedia? || call.PatchMedia?) && Perform(db, rows, call).Ok?
    ensures Fair(db, Perform(db, rows, call).value)
  {
    match call
    case DeleteMedia(id) => DeleteKeepsOk(db, id);
    case PatchMedia(id, ps) => PatchMediaKeepsOk(db, rows, id, ps);
  }

  lemma CardCallsFair(db: Tables, rows: TaskTable.Rows, call: Call)
    requires Catalog.Ok(db) && (call.PostCard? || call.DeleteCard? || call.PatchCard?) && Perform(db, rows, call).Ok?
    ensures Fair(db, Perform(db, rows, call).value) && Perform(db, rows, call).value.dvds == db.dvds
  {
    match call
    case PostCard(card) => CardOps.PostCardKeepsOk(db, card);
    case DeleteCard(id) => CardOps.DropKeepsOk(db, id);
    case PatchCard(id, ps) => CardOps.PatchCardKeepsOk(db, id, ps);
  }

  lemma KindCallsFair(db: Tables, rows: TaskTable.Rows, call: Call)
    requires Catalog.Ok(db) && (call.PostKind? || call.DeleteKind? || call.PatchKind?) && Perform(db, rows, call).Ok?
    ensures Fair(db, Perform(db, rows, call).value) && Perform(db, rows, call).value.dvds == db.dvds
  {
    match call
    case PostKind(name, wanted) => KindOps.PostKindKeepsOk(db, name, wanted);
    case DeleteKind(id) => KindOps.DeleteKindKeepsOk(db, id);
    case PatchKind(id, ps) =>
      KindOps.PatchKindExact(db.kinds, id, ps);
      KindOps.PatchedKeepsOk(db, id, ps);
  }

  /** Every call that succeeds keeps every invariant of the tables, and none creates a media row. */
  lemma CallsFair(db: Tables, rows: TaskTable.Rows, call: Call)
    requires Catalog.Ok(db) && Perform(db, rows, call).Ok?
    ensures Fair(db, Perform(db, rows, call).value)
  {
    if call.DeleteMedia? || call.PatchMedia? {
      MediaCallsFair(db, rows, call);
    } else if call.PostCard? || call.DeleteCard? || call.PatchCard? {
      CardCallsFair(db, rows, call);
    } else {
      KindCallsFair(db, rows, call);
    }
  }
}
