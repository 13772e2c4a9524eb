/** The image routes of app/routes/images.py, mounted under an album. Each handler is a
    transition of the database; the ones that write also exist as a method on the session. */
module Images {
  import opened Wrappers
  import opened Http
  import opened Tables
  import opened Models
  import opened Concurrent
  import opened Db
  import opened Schemas

  function NewImage(s: Store, albumId: int, req: ImageCreate): Image {
    Image(s.nextId, req.title, req.description, req.imagePath, albumId)
  }

  /** `create_image` as written: past the gate it reads `image.id`, an attribute `ImageCreate` does
      not have, so the request fails with 500 before anything is stored. */
  function CreateImageAsWritten(s: Store, albumId: int, req: ImageCreate, me: int): (r: Step<Image>)
    ensures r.store == s && r.result.Err?
    ensures AlbumGate(s, albumId, me).Ok? ==> r.result == Err(InternalError)
    ensures AlbumGate(s, albumId, me).Err? ==> r.result == Err(AlbumGate(s, albumId, me).status)
  {
    match AlbumGate(s, albumId, me)
    case Err(e) => Step(Err(e), s)
    case Ok(_) => Step(Err(InternalError), s)
  }

  /** Even the album's owner cannot add an image. */
  lemma CreateImageAsWrittenFailsForOwner(s: Store, album: Album, req: ImageCreate)
    requires UniqueKeys(s.albums, AlbumId) && album in s.albums
    ensures CreateImageAsWritten(s, album.id, req, album.ownerId).result == Err(InternalError)
  {
    FindKey(s.albums, AlbumId, album);
  }

  /** `create_image` as intended: `requestedId` is the image id the duplicate check looks up in the
      album. The new row gets the next id, the request's fields and the album from the URL. */
  function CreateImage(s: Store, albumId: int, requestedId: int, req: ImageCreate, me: int): (r: Step<Image>)
    ensures r.result.Err? ==> r.store == s
    ensures r.result.Err? ==> r.result.status == BadRequest || AlbumGate(s, albumId, me) == Err(r.result.status)
    ensures r.result == Err(BadRequest) <==>
      AlbumGate(s, albumId, me).Ok? && GetImage(s, albumId, requestedId).Some?
    ensures r.result.Ok? ==> AlbumGate(s, albumId, me).Ok?
    ensures r.result.Ok? ==>
      && r.result.value.id == s.nextId
      && r.result.value.title == req.title
      && r.result.value.description == req.description
      && r.result.value.path == req.imagePath
      && r.result.value.albumId == albumId
    ensures r.result.Ok? ==> r.store == s.(images := s.images + [r.result.value], nextId := s.nextId + 1)
  {
    match AlbumGate(s, albumId, me)
    case Err(e) => Step(Err(e), s)
    case Ok(_) =>
      match ExistingElementException(GetImage(s, albumId, requestedId))
      case Raise(e) => Step(Err(e), s)
      case Pass =>
        var image := NewImage(s, albumId, req);
        Step(Ok(image), s.(images := s.images + [image], nextId := s.nextId + 1))
  }

  lemma CreateImageKeepsValid(s: Store, albumId: int, requestedId: int, req: ImageCreate, me: int)
    requires Valid(s)
    ensures Valid(CreateImage(s, albumId, requestedId, req, me).store)
  {
    var r := CreateImage(s, albumId, requestedId, req, me);
    if r.result.Ok? {
      var album := AlbumGate(s, albumId, me).value;
      assert AlbumId(album) in Column(s.albums, AlbumId);
      InsertImageKeepsValid(s, r.result.value);
    }
  }

  /** `read_images`: behind the gate, every image of the album and no other. */
  function ReadImages(s: Store, albumId: int, me: int): (r: Result<seq<Image>>)
    ensures r.Err? <==> AlbumGate(s, albumId, me).Err?
    ensures r.Err? ==> r.status == AlbumGate(s, albumId, me).status
    ensures r.Ok? ==> forall i :: i in r.value <==> i in s.images && i.albumId == albumId
  {
    match AlbumGate(s, albumId, me)
    case Err(e) => Err(e)
    case Ok(_) => Ok(Select(s.images, ImageAlbum, {albumId}))
  }

  /** `read_images_id`: the image lookup comes first, so a missing image is 404 whoever asks;
      a found image is returned exactly when the gate lets the user through. */
  function ReadImagesId(s: Store, albumId: int, imageId: int, me: int): (r: Result<Image>)
    ensures GetImage(s, albumId, imageId).None? ==> r == Err(NotFound)
    ensures GetImage(s, albumId, imageId).Some? ==>
      (r.Ok? <==> AlbumGate(s, albumId, me).Ok?) &&
      (r.Err? ==> r.status == AlbumGate(s, albumId, me).status)
    ensures r.Ok? ==> r.value in s.images && r.value.id == imageId && r.value.albumId == albumId
  {
    var image := GetImage(s, albumId, imageId);
    match NotFoundException(image)
    case Raise(e) => Err(e)
    case Pass =>
      match AlbumGate(s, albumId, me)
      case Err(e) => Err(e)
      case Ok(_) => Ok(image.value)
  }

  /** `delete_image`: 404 for a missing image before the gate, then `db.delete` of that image; the
      cascade takes its chat, and a chat with messages makes the commit fail. */
  function DeleteImage(s: Store, albumId: int, imageId: int, me: int): (r: Step<()>)
    ensures r.result.Err? ==> r.store == s
    ensures GetImage(s, albumId, imageId).None? ==> r.result == Err(NotFound)
    ensures r.result.Ok? ==> GetImage(s, albumId, imageId).Some? && AlbumGate(s, albumId, me).Ok?
    ensures GetImage(s, albumId, imageId).Some? && AlbumGate(s, albumId, me).Err? ==>
      r.result == Err(AlbumGate(s, albumId, me).status)
    ensures GetImage(s, albumId, imageId).Some? && AlbumGate(s, albumId, me).Ok? ==>
      (r.result.Ok? <==> DeleteImages(s, {imageId}).Ok?) &&
      (r.result.Err? ==> r.result.status == InternalError)
    ensures r.result.Ok? ==> forall i :: i in r.store.images <==> i in s.images && i.id != imageId
    ensures r.result.Ok? ==> forall c :: c in r.store.chats <==> c in s.chats && c.imageId != imageId
    ensures r.result.Ok? ==> r.store == s.(images := r.store.images, chats := r.store.chats)
  {
    var image := GetImage(s, albumId, imageId);
    match NotFoundException(image)
    case Raise(e) => Step(Err(e), s)
    case Pass =>
      match AlbumGate(s, albumId, me)
      case Err(e) => Step(Err(e), s)
      case Ok(_) =>
        match Models.DeleteImages(s, {image.value.id})
        case Err(e) => Step(Err(e), s)
        case Ok(t) => Step(Ok(()), t)
  }

  lemma DeleteImageKeepsValid(s: Store, albumId: int, imageId: int, me: int)
    requires Valid(s)
    ensures Valid(DeleteImage(s, albumId, imageId, me).store)
  {
    if DeleteImage(s, albumId, imageId, me).result.Ok? {
      DeleteImagesKeepsValid(s, {imageId});
    }
  }

  /** `update_image`: 404 for a missing image before the gate; then title, description and path are
      overwritten and nothing else, neither the id nor the album. */
  function UpdateImage(s: Store, albumId: int, imageId: int, req: ImageCreate, me: int): (r: Step<Image>)
    ensures r.result.Err? ==> r.store == s
    ensures GetImage(s, albumId, imageId).None? ==> r.result == Err(NotFound)
    ensures r.result.Ok? <==> GetImage(s, albumId, imageId).Some? && AlbumGate(s, albumId, me).Ok?
    ensures GetImage(s, albumId, imageId).Some? && AlbumGate(s, albumId, me).Err? ==>
      r.result == Err(AlbumGate(s, albumId, me).status)
    ensures r.result.Ok? ==>
      r.result.value ==
        GetImage(s, albumId, imageId).value.(title := req.title, description := req.description, path := req.imagePath)
    ensures r.result.Ok? ==> r.store == s.(images := Replace(s.images, ImageId, imageId, r.result.value))
  {
    var image := GetImage(s, albumId, imageId);
    match NotFoundException(image)
    case Raise(e) => Step(Err(e), s)
    case Pass =>
      match AlbumGate(s, albumId, me)
      case Err(e) => Step(Err(e), s)
      case Ok(_) =>
        var row := image.value.(title := req.title, description := req.description, path := req.imagePath);
        Step(Ok(row), s.(images := Replace(s.images, ImageId, row.id, row)))
  }

  /** The update leaves every other image where and as it was, and the table's length. */
  lemma UpdateImageTouchesOneRow(s: Store, albumId: int, imageId: int, req: ImageCreate, me: int)
    requires UniqueKeys(s.images, ImageId) && UpdateImage(s, albumId, imageId, req, me).result.Ok?
    ensures var t := UpdateImage(s, albumId, imageId, req, me).store;
      && |t.images| == |s.images|
      && (forall j :: 0 <= j < |s.images| && s.images[j].id != imageId ==> t.images[j] == s.images[j])
      && (forall j :: 0 <= j < |s.images| && s.images[j].id == imageId ==>
            t.images[j] == s.images[j].(title := req.title, description := req.description, path := req.imagePath))
  {
    var old_ := GetImage(s, albumId, imageId).value;
    forall j | 0 <= j < |s.images| && s.images[j].id == imageId
      ensures s.images[j] == old_
    {
      FindKey(s.images, ImageId, s.images[j]);
      FindKey(s.images, ImageId, old_);
    }
  }

  lemma UpdateImageKeepsValid(s: Store, albumId: int, imageId: int, req: ImageCreate, me: int)
    requires Valid(s)
    ensures Valid(UpdateImage(s, albumId, imageId, req, me).store)
  {
    var r := UpdateImage(s, albumId, imageId, req, me);
    if r.result.Ok? {
      var album := AlbumGate(s, albumId, me).value;
      assert AlbumId(album) in Column(s.albums, AlbumId);
      assert ImageId(GetImage(s, albumId, imageId).value) in Column(s.images, ImageId);
      ReplaceImageKeepsValid(s, imageId, r.result.value);
    }
  }

  // ---- The writing handlers, performed on the session ----

  method HandleCreateImage(db: Session, albumId: int, requestedId: int, req: ImageCreate, me: int)
    returns (r: Result<Image>)
    modifies db
    ensures r == CreateImage(old(db.Snapshot()), albumId, requestedId, req, me).result
    ensures db.Snapshot() == CreateImage(old(db.Snapshot()), albumId, requestedId, req, me).store
  {
    var gate := AlbumGate(db.Snapshot(), albumId, me);
    if gate.Err? {
      return Err(gate.status);
    }
    var check := ExistingElementException(GetImage(db.Snapshot(), albumId, requestedId));
    if check.Raise? {
      return Err(check.status);
    }
    var image := db.AddImage(req.title, req.description, req.imagePath, albumId);
    r := Ok(image);
  }

  method HandleDeleteImage(db: Session, albumId: int, imageId: int, me: int) returns (r: Result<()>)
    modifies db
    ensures r == DeleteImage(old(db.Snapshot()), albumId, imageId, me).result
    ensures db.Snapshot() == DeleteImage(old(db.Snapshot()), albumId, imageId, me).store
  {
    var image := GetImage(db.Snapshot(), albumId, imageId);
    if image.None? {
      return Err(NotFound);
    }
    var gate := AlbumGate(db.Snapshot(), albumId, me);
    if gate.Err? {
      return Err(gate.status);
    }
    var flushed := db.DeleteImage(image.value.id);
    r := if flushed.Raise? then Err(flushed.status) else Ok(());
  }

  method HandleUpdateImage(db: Session, albumId: int, imageId: int, req: ImageCreate, me: int)
    returns (r: Result<Image>)
    modifies db
    ensures r == UpdateImage(old(db.Snapshot()), albumId, imageId, req, me).result
    ensures db.Snapshot() == UpdateImage(old(db.Snapshot()), albumId, imageId, req, me).store
  {
    var image := GetImage(db.Snapshot(), albumId, imageId);
    if image.None? {
      return Err(NotFound);
    }
    var gate := AlbumGate(db.Snapshot(), albumId, me);
    if gate.Err? {
      return Err(gate.status);
    }
    var row := image.value.(title := req.title, description := req.description, path := req.imagePath);
    db.SaveImage(row);
    r := Ok(row);
  }
}
