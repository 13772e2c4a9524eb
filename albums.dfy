/** The album routes of app/routes/albums.py under `/me/albums`. */
module Albums {
  import opened Wrappers
  import opened Http
  import opened Tables
  import opened Models
  import opened Concurrent
  import opened Db

  /** The two replies of `delete_album`. */
  datatype DeleteReply = DeletedForYou | AlbumDeleted

  /** The albums, in table order, that `me` owns or holds a participant row for. */
  function Visible(albums: seq<Album>, participants: set<Participant>, me: int): (r: seq<Album>)
    ensures forall a :: a in r ==> a in albums && (a.ownerId == me || Participant(me, a.id) in participants)
    ensures forall a :: a in albums && (a.ownerId == me || Participant(me, a.id) in participants) ==> a in r
    decreases |albums|
  {
    if albums == [] then []
    else
      var a := albums[0];
      (if a.ownerId == me || Participant(me, a.id) in participants then [a] else []) +
      Visible(albums[1..], participants, me)
  }

  /** `read_user_albums`: the outer join of albums with their participant rows, filtered on owner
      or participant. Each qualifying album is listed; how many times the join repeats it is not
      modelled. */
  function ReadUserAlbums(s: Store, me: int): (r: seq<Album>)
    ensures forall a :: a in r <==> a in s.albums && (a.ownerId == me || Participant(me, a.id) in s.participants)
  {
    Visible(s.albums, s.participants, me)
  }

  /** Every album the list shows passes the gate, and with album ids unique the gate lets the user
      into no album the list leaves out. */
  lemma ReadUserAlbumsAgreesWithGate(s: Store, me: int, a: Album)
    requires UniqueKeys(s.albums, AlbumId) && a in s.albums
    ensures a in ReadUserAlbums(s, me) <==> AlbumGate(s, a.id, me).Ok?
  {
    FindKey(s.albums, AlbumId, a);
  }

  /** `create_album`: one new album, titled as asked and owned by the current user. */
  function CreateAlbum(s: Store, title: string, me: int, now: Timestamp): (r: Step<Album>)
    ensures r.result.Ok?
    ensures r.result.value == Album(s.nextId, title, now, me)
    ensures r.store == s.(albums := s.albums + [r.result.value], nextId := s.nextId + 1)
  {
    var album := Album(s.nextId, title, now, me);
    Step(Ok(album), s.(albums := s.albums + [album], nextId := s.nextId + 1))
  }

  /** The owner sees the new album in the list. */
  lemma CreateAlbumIsListed(s: Store, title: string, me: int, now: Timestamp)
    ensures var r := CreateAlbum(s, title, me, now);
      r.result.value in ReadUserAlbums(r.store, me)
  {
  }

  lemma CreateAlbumKeepsValid(s: Store, title: string, me: int, now: Timestamp)
    requires Valid(s) && me in Column(s.users, UserId)
    ensures Valid(CreateAlbum(s, title, me, now).store)
  {
    InsertAlbumKeepsValid(s, CreateAlbum(s, title, me, now).result.value);
  }

  /** `read_album` as written: the participant query is never run to `.first()`, and the result
      object it keeps is always truthy, so every user gets any existing album. */
  function ReadAlbumAsWritten(s: Store, albumId: int, me: int): (r: Result<Album>)
    ensures r.Err? <==> forall a :: a in s.albums ==> a.id != albumId
    ensures r.Err? ==> r.status == NotFound
    ensures r.Ok? ==> r.value in s.albums && r.value.id == albumId
  {
    match Find(s.albums, AlbumId, albumId)
    case None => Err(NotFound)
    case Some(album) => Ok(album)
  }

  /** `read_album` with the participant row fetched by `.first()`. */
  function ReadAlbum(s: Store, albumId: int, me: int): (r: Result<Album>)
    ensures r == Err(NotFound) <==> forall a :: a in s.albums ==> a.id != albumId
    ensures r.Ok? ==> r.value in s.albums && r.value.id == albumId
    ensures r.Ok? ==> r.value.ownerId == me || Participant(me, albumId) in s.participants
    ensures r.Err? ==> r.status == NotFound || r.status == Forbidden
  {
    match Find(s.albums, AlbumId, albumId)
    case None => Err(NotFound)
    case Some(album) =>
      if album.ownerId != me && Participant(me, albumId) !in s.participants then Err(Forbidden)
      else Ok(album)
  }

  /** The owner reads the album unchanged, as the code written and the intended code agree. */
  lemma ReadAlbumOwner(s: Store, album: Album)
    requires UniqueKeys(s.albums, AlbumId) && album in s.albums
    ensures ReadAlbum(s, album.id, album.ownerId) == Ok(album)
    ensures ReadAlbumAsWritten(s, album.id, album.ownerId) == Ok(album)
  {
    FindKey(s.albums, AlbumId, album);
  }

  /** A stranger to an album reads it through the code as written, and is refused by the intended code. */
  lemma ReadAlbumAsWrittenLeaks(s: Store, album: Album, me: int)
    requires UniqueKeys(s.albums, AlbumId) && album in s.albums
    requires album.ownerId != me && Participant(me, album.id) !in s.participants
    ensures ReadAlbumAsWritten(s, album.id, me) == Ok(album)
    ensures ReadAlbum(s, album.id, me) == Err(Forbidden)
  {
    FindKey(s.albums, AlbumId, album);
  }

  /** Reading an album with `.first()` is the owner-or-participant gate of the image routes. */
  lemma ReadAlbumIsGate(s: Store, albumId: int, me: int)
    ensures ReadAlbum(s, albumId, me) == AlbumGate(s, albumId, me)
  {
  }

  /** `delete_album` as written. A missing album fails on `album.owner_id` with 500. For a
      non-owner the participant filter compares the class `models.Album` with an int, which Python
      evaluates to False, so the condition is false, no row is found and the answer is 401. The
      owner deletes the album, with the cascade. */
  function DeleteAlbumAsWritten(s: Store, albumId: int, me: int): (r: Step<DeleteReply>)
    ensures r.result.Err? ==> r.store == s
    ensures r.result != Ok(DeletedForYou)
    ensures (forall a :: a in s.albums ==> a.id != albumId) ==> r.result == Err(InternalError)
    ensures r.result.Ok? ==> DeleteAlbumRows(s, albumId) == Ok(r.store)
  {
    match Find(s.albums, AlbumId, albumId)
    case None => Step(Err(InternalError), s)
    case Some(album) =>
      if !(me == album.ownerId) then Step(Err(Unauthorized), s)
      else
        match DeleteAlbumRows(s, album.id)
        case Err(e) => Step(Err(e), s)
        case Ok(t) => Step(Ok(AlbumDeleted), t)
  }

  /** `update_album` as written: the same missing-album and participant faults as `delete_album`. */
  function UpdateAlbumAsWritten(s: Store, albumId: int, title: string, me: int): (r: Step<Album>)
    ensures r.result.Err? ==> r.store == s
    ensures (forall a :: a in s.albums ==> a.id != albumId) ==> r.result == Err(InternalError)
    ensures r.result.Ok? ==> r.result.value.ownerId == me && r.result.value.title == title
    ensures r.result.Ok? ==> r.store == s.(albums := Replace(s.albums, AlbumId, albumId, r.result.value))
  {
    match Find(s.albums, AlbumId, albumId)
    case None => Step(Err(InternalError), s)
    case Some(album) =>
      if !(me == album.ownerId) then Step(Err(Unauthorized), s)
      else
        var row := album.(title := title);
        Step(Ok(row), s.(albums := Replace(s.albums, AlbumId, albumId, row)))
  }

  /** A participant who is not the owner is turned away with 401 by both handlers as written, while
      the intended handlers let the participant leave the album or rename it. */
  lemma ParticipantDeniedAsWritten(s: Store, album: Album, me: int, title: string)
    requires UniqueKeys(s.albums, AlbumId) && album in s.albums
    requires album.ownerId != me && Participant(me, album.id) in s.participants
    ensures DeleteAlbumAsWritten(s, album.id, me).result == Err(Unauthorized)
    ensures UpdateAlbumAsWritten(s, album.id, title, me).result == Err(Unauthorized)
    ensures DeleteAlbum(s, album.id, me).result == Ok(DeletedForYou)
    ensures UpdateAlbum(s, album.id, title, me).result == Ok(album.(title := title))
  {
    FindKey(s.albums, AlbumId, album);
  }

  /** An album id nobody holds crashes both handlers as written; the intended ones answer 404. */
  lemma MissingAlbumAsWritten(s: Store, albumId: int, me: int, title: string)
    requires forall a :: a in s.albums ==> a.id != albumId
    ensures DeleteAlbumAsWritten(s, albumId, me).result == Err(InternalError)
    ensures UpdateAlbumAsWritten(s, albumId, title, me).result == Err(InternalError)
    ensures DeleteAlbum(s, albumId, me).result == Err(NotFound)
    ensures UpdateAlbum(s, albumId, title, me).result == Err(NotFound)
  {
  }

  /** `delete_album` as intended: 404 for a missing album; the owner deletes it with the cascade; a
      participant deletes only the own participant row and the album stays; anyone else gets 401. */
  function DeleteAlbum(s: Store, albumId: int, me: int): (r: Step<DeleteReply>)
    ensures r.result.Err? ==> r.store == s
    ensures r.result == Err(NotFound) <==> forall a :: a in s.albums ==> a.id != albumId
    ensures r.result == Ok(DeletedForYou) ==>
      Participant(me, albumId) in s.participants &&
      r.store == s.(participants := s.participants - {Participant(me, albumId)})
    ensures r.result == Ok(AlbumDeleted) ==>
      (exists a :: a in s.albums && a.id == albumId && a.ownerId == me) &&
      DeleteAlbumRows(s, albumId) == Ok(r.store)
    ensures r.result == Err(Unauthorized) ==> Participant(me, albumId) !in s.participants
    ensures Find(s.albums, AlbumId, albumId).Some? && Find(s.albums, AlbumId, albumId).value.ownerId == me ==>
      (r.result == Ok(AlbumDeleted) <==> DeleteAlbumRows(s, albumId).Ok?) &&
      (r.result.Err? ==> r.result == Err(InternalError))
    ensures Find(s.albums, AlbumId, albumId).Some? && Find(s.albums, AlbumId, albumId).value.ownerId != me ==>
      (r.result == Ok(DeletedForYou) <==> Participant(me, albumId) in s.participants) &&
      (r.result.Err? ==> r.result == Err(Unauthorized))
  {
    match Find(s.albums, AlbumId, albumId)
    case None => Step(Err(NotFound), s)
    case Some(album) =>
      if !(me == album.ownerId) then
        var row := Participant(me, albumId);
        if row !in s.participants then Step(Err(Unauthorized), s)
        else Step(Ok(DeletedForYou), s.(participants := s.participants - {row}))
      else
        match DeleteAlbumRows(s, album.id)
        case Err(e) => Step(Err(e), s)
        case Ok(t) => Step(Ok(AlbumDeleted), t)
  }

  /** With album ids unique: the owner's delete removes the album and all its images unless someone
      participates in it or a message sits in one of its images' chats, which fails with 500 and
      changes nothing; a non-owner's never removes the album. */
  lemma DeleteAlbumByRole(s: Store, album: Album, me: int)
    requires UniqueKeys(s.albums, AlbumId) && album in s.albums
    ensures var r := DeleteAlbum(s, album.id, me);
      if me == album.ownerId then
        (r.result == Ok(AlbumDeleted) <==>
           !(exists p :: p in s.participants && p.albumId == album.id) && !MessagesInAlbum(s, album.id)) &&
        (r.result.Err? ==> r.result == Err(InternalError)) &&
        (r.result.Ok? ==> album !in r.store.albums && forall i :: i in r.store.images ==> i.albumId != album.id)
      else
        album in r.store.albums &&
        (r.result == Ok(DeletedForYou) <==> Participant(me, album.id) in s.participants) &&
        (r.result == Err(Unauthorized) <==> Participant(me, album.id) !in s.participants)
  {
    FindKey(s.albums, AlbumId, album);
    DeleteAlbumRowsFails(s, album.id);
    if me == album.ownerId && DeleteAlbum(s, album.id, me).result.Ok? {
      DeleteAlbumRowsDropsItsImages(s, album.id);
    }
  }

  lemma DeleteAlbumKeepsValid(s: Store, albumId: int, me: int)
    requires Valid(s)
    ensures Valid(DeleteAlbum(s, albumId, me).store)
  {
    var r := DeleteAlbum(s, albumId, me);
    if r.result == Ok(DeletedForYou) {
      RemoveParticipantKeepsValid(s, Participant(me, albumId));
    } else if r.result == Ok(AlbumDeleted) {
      DeleteAlbumRowsKeepsValid(s, albumId);
    }
  }

  /** `update_album` as intended: 404 for a missing album; the owner and a participant both set the
      title and nothing else; anyone else gets 401. */
  function UpdateAlbum(s: Store, albumId: int, title: string, me: int): (r: Step<Album>)
    ensures r.result.Err? ==> r.store == s
    ensures r.result == Err(NotFound) <==> forall a :: a in s.albums ==> a.id != albumId
    ensures r.result.Err? ==> r.result.status == NotFound || r.result.status == Unauthorized
    ensures r.result.Ok? ==>
      && Find(s.albums, AlbumId, albumId).Some?
      && r.result.value == Find(s.albums, AlbumId, albumId).value.(title := title)
      && (r.result.value.ownerId == me || Participant(me, albumId) in s.participants)
    ensures r.result.Ok? ==> r.store == s.(albums := Replace(s.albums, AlbumId, albumId, r.result.value))
    ensures Find(s.albums, AlbumId, albumId).Some? ==>
      (r.result.Ok? <==>
         Find(s.albums, AlbumId, albumId).value.ownerId == me || Participant(me, albumId) in s.participants)
  {
    match Find(s.albums, AlbumId, albumId)
    case None => Step(Err(NotFound), s)
    case Some(album) =>
      if !(me == album.ownerId) && Participant(me, albumId) !in s.participants then Step(Err(Unauthorized), s)
      else
        var row := album.(title := title);
        Step(Ok(row), s.(albums := Replace(s.albums, AlbumId, albumId, row)))
  }

  /** With album ids unique, the update renames exactly that album and keeps its id and owner. */
  lemma UpdateAlbumRenamesOne(s: Store, albumId: int, title: string, me: int)
    requires UniqueKeys(s.albums, AlbumId) && UpdateAlbum(s, albumId, title, me).result.Ok?
    ensures var t := UpdateAlbum(s, albumId, title, me).store;
      && |t.albums| == |s.albums|
      && forall j :: 0 <= j < |s.albums| ==>
           t.albums[j] == if s.albums[j].id == albumId then s.albums[j].(title := title) else s.albums[j]
  {
    var found := Find(s.albums, AlbumId, albumId).value;
    forall j | 0 <= j < |s.albums| && s.albums[j].id == albumId ensures s.albums[j] == found {
      FindKey(s.albums, AlbumId, s.albums[j]);
    }
  }

  lemma UpdateAlbumKeepsValid(s: Store, albumId: int, title: string, me: int)
    requires Valid(s)
    ensures Valid(UpdateAlbum(s, albumId, title, me).store)
  {
    var r := UpdateAlbum(s, albumId, title, me);
    if r.result.Ok? {
      var found := Find(s.albums, AlbumId, albumId).value;
      assert AlbumId(found) in Column(s.albums, AlbumId);
      assert AlbumOwner(found) in Column(s.albums, AlbumOwner);
      ReplaceAlbumKeepsValid(s, albumId, r.result.value);
    }
  }

  // ---- The writing handlers, performed on the session ----

  method HandleCreateAlbum(db: Session, title: string, me: int, now: Timestamp) returns (r: Result<Album>)
    modifies db
    ensures r == CreateAlbum(old(db.Snapshot()), title, me, now).result
    ensures db.Snapshot() == CreateAlbum(old(db.Snapshot()), title, me, now).store
  {
    var album := db.AddAlbum(title, now, me);
    r := Ok(album);
  }

  method HandleDeleteAlbum(db: Session, albumId: int, me: int) returns (r: Result<DeleteReply>)
    modifies db
    ensures r == DeleteAlbum(old(db.Snapshot()), albumId, me).result
    ensures db.Snapshot() == DeleteAlbum(old(db.Snapshot()), albumId, me).store
  {
    var album := Find(db.albums, AlbumId, albumId);
    if album.None? {
      return Err(NotFound);
    }
    if !(me == album.value.ownerId) {
      var row := Participant(me, albumId);
      if row !in db.participants {
        return Err(Unauthorized);
      }
      db.DeleteParticipant(row);
      return Ok(DeletedForYou);
    }
    var flushed := db.DeleteAlbum(album.value.id);
    r := if flushed.Raise? then Err(flushed.status) else Ok(AlbumDeleted);
  }

  method HandleUpdateAlbum(db: Session, albumId: int, title: string, me: int) returns (r: Result<Album>)
    modifies db
    ensures r == UpdateAlbum(old(db.Snapshot()), albumId, title, me).result
    ensures db.Snapshot() == UpdateAlbum(old(db.Snapshot()), albumId, title, me).store
  {
    var album := Find(db.albums, AlbumId, albumId);
    if album.None? {
      return Err(NotFound);
    }
    if !(me == album.value.ownerId) && Participant(me, albumId) !in db.participants {
      return Err(Unauthorized);
    }
    var row := album.value.(title := title);
    db.SaveAlbum(row);
    r := Ok(row);
  }
}
