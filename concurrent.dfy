/** The read-only helpers of app/utils/concurrent.py that the image and chat routes share, and
    the owner-or-participant gate built from them. They take the database as a value: none of
    them writes. */
module Concurrent {
  import opened Wrappers
  import opened Http
  import opened Tables
  import opened Models

  /** `participation_controller`: the album with that id (404 when there is none), together with
      the participant row of the current user for it, if there is one. */
  function ParticipationController(s: Store, albumId: int, me: int): (r: Result<(Album, Option<Participant>)>)
    ensures r.Err? ==> r.status == NotFound
    ensures r.Err? <==> forall a :: a in s.albums ==> a.id != albumId
    ensures r.Ok? ==> r.value.0 in s.albums && r.value.0.id == albumId
    ensures r.Ok? ==> (r.value.1.Some? <==> Participant(me, albumId) in s.participants)
    ensures r.Ok? && r.value.1.Some? ==> r.value.1.value.userId == me && r.value.1.value.albumId == albumId
  {
    match Find(s.albums, AlbumId, albumId)
    case None => Err(NotFound)
    case Some(album) =>
      var row := Participant(me, album.id);
      Ok((album, if row in s.participants then Some(row) else None))
  }

  /** `get_image`: the first image with both that id and that album, if any. */
  function GetImage(s: Store, albumId: int, imageId: int): (r: Option<Image>)
    ensures r.Some? ==> r.value in s.images && r.value.id == imageId && r.value.albumId == albumId
    ensures r.None? <==> forall i :: i in s.images ==> !(i.id == imageId && i.albumId == albumId)
  {
    Find(s.images, ImageKey, (imageId, albumId))
  }

  /** `not_found_exception`: a stored row is always truthy, so it raises exactly on None. */
  function NotFoundException<T>(element: Option<T>): (r: Outcome)
    ensures r.Raise? <==> element.None?
    ensures r.Raise? ==> r.status == NotFound
  {
    if element.None? then Raise(NotFound) else Pass
  }

  /** `existing_element_exception`: raises exactly when a row was found. */
  function ExistingElementException<T>(element: Option<T>): (r: Outcome)
    ensures r.Raise? <==> element.Some?
    ensures r.Raise? ==> r.status == BadRequest
  {
    if element.Some? then Raise(BadRequest) else Pass
  }

  /** The owner-or-participant test that every image handler writes out after
      `participation_controller`: 404 for a missing album, 403 for a user who neither owns it nor
      holds a participant row for it, else the album. The chat routes call `verify_album_access`,
      which concurrent.py does not define; this model takes it to be this same gate. */
  function AlbumGate(s: Store, albumId: int, me: int): (r: Result<Album>)
    ensures r.Err? ==> r.status == NotFound || r.status == Forbidden
    ensures r == Err(NotFound) <==> forall a :: a in s.albums ==> a.id != albumId
    ensures r.Ok? ==> r.value in s.albums && r.value.id == albumId
    ensures r.Ok? ==> r.value.ownerId == me || Participant(me, albumId) in s.participants
  {
    match ParticipationController(s, albumId, me)
    case Err(e) => Err(e)
    case Ok((album, participant)) =>
      if !(album.ownerId == me) && participant.None? then Err(Forbidden) else Ok(album)
  }

  /** Some album with that id is owned by the user or lists the user as a participant. */
  ghost predicate MayAccess(s: Store, albumId: int, me: int) {
    exists a :: a in s.albums && a.id == albumId && (a.ownerId == me || Participant(me, albumId) in s.participants)
  }

  /** With album ids unique, the gate lets exactly the owner and the participants through, and
      refuses everyone else with 403 once the album exists. */
  lemma AlbumGateDecides(s: Store, albumId: int, me: int)
    requires UniqueKeys(s.albums, AlbumId)
    ensures AlbumGate(s, albumId, me).Ok? <==> MayAccess(s, albumId, me)
    ensures AlbumGate(s, albumId, me) == Err(Forbidden) <==>
      (exists a :: a in s.albums && a.id == albumId) && !MayAccess(s, albumId, me)
  {
    if MayAccess(s, albumId, me) {
      var a :| a in s.albums && a.id == albumId && (a.ownerId == me || Participant(me, albumId) in s.participants);
      FindKey(s.albums, AlbumId, a);
    }
  }

  /** An image id names an image of one album only: asking for it under another album finds nothing. */
  lemma GetImageOtherAlbum(s: Store, i: Image, albumId: int)
    requires UniqueKeys(s.images, ImageId) && i in s.images && i.albumId != albumId
    ensures GetImage(s, albumId, i.id) == None
  {
    FindKey(s.images, ImageId, i);
    forall j | j in s.images && j.id == i.id ensures j == i {
      FindKey(s.images, ImageId, j);
    }
  }
}
