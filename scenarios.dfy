/** The album, image, chat and message flow that tests/test_endpoints.py walks through, stated
    for any consistent database and any registered user. */
module Scenarios {
  import opened Wrappers
  import opened Http
  import opened Tables
  import opened Models
  import opened Schemas
  import opened Concurrent
  import Albums
  import Images
  import Messages

  /** A row drawn with the next id is what `.first()` finds under that id. */
  lemma FindFresh<T>(t: seq<T>, key: T -> int, bound: int, x: T)
    requires Keyed(t, key, bound) && key(x) == bound
    ensures Find(t + [x], key, bound) == Some(x)
  {
    FreshId(t, key, bound);
    FindAppend(t, x, key, bound);
  }

  /** Nothing in a consistent database refers to the id the generator hands out next. */
  lemma NothingRefersToFreshId(s: Store)
    requires Valid(s)
    ensures forall i :: i in s.images ==> i.albumId != s.nextId
    ensures forall c :: c in s.chats ==> c.imageId != s.nextId
  {
    forall i | i in s.images ensures i.albumId != s.nextId {
      assert ImageAlbum(i) in Column(s.images, ImageAlbum);
      assert i.albumId in Column(s.albums, AlbumId);
    }
    forall c | c in s.chats ensures c.imageId != s.nextId {
      assert ChatImage(c) in Column(s.chats, ChatImage);
      assert c.imageId in Column(s.images, ImageId);
    }
  }

  /** A new album lets its owner in and holds no image yet. */
  lemma AlbumStep(s0: Store, me: int, title: string, t1: Timestamp)
    requires Valid(s0) && me in Column(s0.users, UserId)
    ensures var r1 := Albums.CreateAlbum(s0, title, me, t1);
      && Valid(r1.store)
      && AlbumGate(r1.store, r1.result.value.id, me) == Ok(r1.result.value)
      && forall i :: i in r1.store.images ==> i.albumId != r1.result.value.id
  {
    var r1 := Albums.CreateAlbum(s0, title, me, t1);
    Albums.CreateAlbumKeepsValid(s0, title, me, t1);
    FindFresh(s0.albums, AlbumId, s0.nextId, r1.result.value);
    NothingRefersToFreshId(s0);
  }

  /** In an album the user may enter and that holds no image yet, the image is created, the
      as-written handler fails, and the new image has no chat. */
  lemma ImageStep(s1: Store, album: Album, requestedId: int, req: ImageCreate, me: int)
    requires Valid(s1) && AlbumGate(s1, album.id, me) == Ok(album)
    requires forall i :: i in s1.images ==> i.albumId != album.id
    ensures Images.CreateImageAsWritten(s1, album.id, req, me).result == Err(InternalError)
    ensures var r2 := Images.CreateImage(s1, album.id, requestedId, req, me);
      && r2.result.Ok?
      && Keyed(r2.store.chats, ChatId, r2.store.nextId)
      && r2.result.value.albumId == album.id
      && AlbumGate(r2.store, album.id, me) == Ok(album)
      && Find(r2.store.images, ImageId, r2.result.value.id) == Some(r2.result.value)
      && forall c :: c in r2.store.chats ==> c.imageId != r2.result.value.id
  {
    assert GetImage(s1, album.id, requestedId) == None;
    var r2 := Images.CreateImage(s1, album.id, requestedId, req, me);
    KeyedGrow(s1.chats, ChatId, s1.nextId);
    FindFresh(s1.images, ImageId, s1.nextId, r2.result.value);
    NothingRefersToFreshId(s1);
  }

  /** Opening the chat of an image the user may reach creates it, and the chat then admits the user. */
  lemma ChatStep(s2: Store, image: Image, album: Album, me: int, t2: Timestamp)
    requires Keyed(s2.chats, ChatId, s2.nextId) && Find(s2.images, ImageId, image.id) == Some(image)
    requires image.albumId == album.id && AlbumGate(s2, album.id, me) == Ok(album)
    requires forall c :: c in s2.chats ==> c.imageId != image.id
    ensures var r3 := Messages.GetChat(s2, image.id, me, t2);
      r3.result.Ok? && Messages.ChatAccess(r3.store, r3.result.value.id, me).Ok?
  {
    var chat := Chat(s2.nextId, image.id, t2);
    var s3 := s2.(chats := s2.chats + [chat], nextId := s2.nextId + 1);
    assert Find(s2.chats, ChatImage, image.id) == None;
    assert Messages.GetChat(s2, image.id, me, t2) == Step(Ok(chat), s3);
    FindFresh(s2.chats, ChatId, s2.nextId, chat);
    assert AlbumGate(s3, album.id, me) == AlbumGate(s2, album.id, me);
    assert Messages.ChatAccess(s3, chat.id, me) == Ok(image);
  }

  /** A user creates an album, adds an image to it, opens the image's chat, posts in it and reads
      the message back; every step succeeds. With `create_image` as written the second step
      already fails with 500. */
  lemma AlbumImageChatFlow(s0: Store, me: int, title: string, req: ImageCreate, requestedId: int,
                           content: string, t1: Timestamp, t2: Timestamp, t3: Timestamp)
    requires Valid(s0) && me in Column(s0.users, UserId)
    ensures var r1 := Albums.CreateAlbum(s0, title, me, t1);
      var album := r1.result.value;
      var r2 := Images.CreateImage(r1.store, album.id, requestedId, req, me);
      && Images.CreateImageAsWritten(r1.store, album.id, req, me).result == Err(InternalError)
      && r2.result.Ok?
      && var image := r2.result.value;
         var r3 := Messages.GetChat(r2.store, image.id, me, t2);
         && r3.result.Ok?
         && var chat := r3.result.value;
            var r4 := Messages.CreateMessage(r3.store, chat.id, MessageCreate(content, chat.id), me, t3);
            && r4.result.Ok?
            && var read := Messages.ReadMessages(r4.store, chat.id, me);
               read.Ok? && r4.result.value in read.value
  {
    var r1 := Albums.CreateAlbum(s0, title, me, t1);
    var album := r1.result.value;
    AlbumStep(s0, me, title, t1);
    ImageStep(r1.store, album, requestedId, req, me);
    var r2 := Images.CreateImage(r1.store, album.id, requestedId, req, me);
    var image := r2.result.value;
    ChatStep(r2.store, image, album, me, t2);
    var r3 := Messages.GetChat(r2.store, image.id, me, t2);
    var chat := r3.result.value;
    Messages.CreateMessageThenRead(r3.store, chat.id, MessageCreate(content, chat.id), me, t3);
  }
}
