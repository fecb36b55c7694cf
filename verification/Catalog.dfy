/** The tables of the catalog and media services, and the invariants that span them. */
module Catalog {
  import opened Results

  type Id = nat

  datatype Card = Card(name: string, note: Option<string>)
  datatype Movie = Movie(tmdbId: Option<nat>, fanartId: Option<string>, releaseYear: Option<int>)
  datatype Edition = Edition(kindId: Id, movieId: Id)
  datatype Kind = Kind(name: string, isDefault: bool)
  datatype Media = Media(mediaSetId: Option<Id>, note: Option<string>)

  datatype Tables = Tables(
    cards: map<Id, Card>,
    movies: map<Id, Movie>,
    editions: map<Id, Edition>,
    kinds: map<Id, Kind>,
    media: map<Id, Media>,
    dvds: map<Id, string>,
    mediaSets: set<Id>,
    mediaCards: set<(Id, Id)>,   // (media, card)
    setCards: set<(Id, Id)>,     // (media set, card)
    nextCard: Id,
    nextKind: Id,
    nextMedia: Id)

  datatype ApiError = BadRequest | NotFound | AlreadyExists | Internal

  /** Every card is a movie or an edition and not both; every edition names an existing movie and an existing kind. */
  ghost predicate CardsOk(db: Tables) {
    && db.cards.Keys == db.movies.Keys + db.editions.Keys
    && db.movies.Keys !! db.editions.Keys
    && (forall e :: e in db.editions ==> db.editions[e].movieId in db.movies && db.editions[e].kindId in db.kinds)
    && (forall c :: c in db.cards ==> db.cards[c].name != "" && c < db.nextCard)
  }

  /** Links join existing rows, every media is a DVD, and every media set referred to exists. */
  ghost predicate LinksOk(db: Tables) {
    && (forall p :: p in db.mediaCards ==> p.0 in db.media && p.1 in db.cards)
    && (forall p :: p in db.setCards ==> p.0 in db.mediaSets && p.1 in db.cards)
    && db.dvds.Keys == db.media.Keys
    && (forall m :: m in db.media ==> m < db.nextMedia && db.dvds[m] != ""
                                      && (db.media[m].mediaSetId.Some? ==> db.media[m].mediaSetId.value in db.mediaSets))
  }

  /** At most one kind is the default. */
  predicate OneDefault(kinds: map<Id, Kind>) {
    forall i, j :: i in kinds && j in kinds && kinds[i].isDefault && kinds[j].isDefault ==> i == j
  }

  ghost predicate KindsOk(db: Tables) {
    OneDefault(db.kinds) && forall k :: k in db.kinds ==> k < db.nextKind
  }

  ghost predicate Ok(db: Tables) {
    CardsOk(db) && LinksOk(db) && KindsOk(db)
  }
}
