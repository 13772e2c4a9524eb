/** The tables of app/models.py: one record type per table, the store holding them, the keys and
    foreign keys the declarations impose, and what `db.delete` does given the declared cascades. */
module Models {
  import opened Wrappers
  import opened Http
  import opened Tables

  /** A `datetime.now` reading; the model only stores it. */
  type Timestamp = int

  /** `users`: email and username are required, `password` holds whatever the caller stored. */
  datatype User = User(id: int, email: string, username: string, password: string)

  /** `albums`: `owner_id` is a required reference to `users.id`. */
  datatype Album = Album(id: int, title: string, createdAt: Timestamp, ownerId: int)

  /** `images`: `description` is the one nullable column; `album_id` references `albums.id`. */
  datatype Image = Image(id: int, title: string, description: Option<string>, path: string, albumId: int)

  /** `chats`: `image_id` references `images.id` (the declaration does not make it unique). */
  datatype Chat = Chat(id: int, imageId: int, createdAt: Timestamp)

  /** `messages`: `sender_id` references `users.id`, `chat_id` references `chats.id`. */
  datatype Message = Message(id: int, content: string, sentAt: Timestamp, senderId: int, chatId: int)

  /** `album_participants`, whose primary key is the pair itself. */
  datatype Participant = Participant(userId: int, albumId: int)

  /** The database. Each table keeps its rows in insertion order; `album_participants`, keyed by
      the whole row, is a set. `nextId` is the next value the id generator hands out. */
  datatype Store = Store(
    users: seq<User>,
    albums: seq<Album>,
    images: seq<Image>,
    chats: seq<Chat>,
    messages: seq<Message>,
    participants: set<Participant>,
    nextId: int)

  /** What a route handler leaves behind: its response or the error it raises, and the database
      after it. A raised error rolls nothing back because nothing was committed before it. */
  datatype Step<T> = Step(result: Result<T>, store: Store)

  // Columns, as arguments to the queries of module Tables.
  function UserId(u: User): int { u.id }
  function UserEmail(u: User): string { u.email }
  function AlbumId(a: Album): int { a.id }
  function AlbumOwner(a: Album): int { a.ownerId }
  function ImageId(i: Image): int { i.id }
  function ImageAlbum(i: Image): int { i.albumId }
  function ImageKey(i: Image): (int, int) { (i.id, i.albumId) }
  function ChatId(c: Chat): int { c.id }
  function ChatImage(c: Chat): int { c.imageId }
  function ChatKey(c: Chat): (int, int) { (c.id, c.imageId) }
  function MessageId(m: Message): int { m.id }
  function MessageChat(m: Message): int { m.chatId }
  function MessageSender(m: Message): int { m.senderId }

  function ParticipantUsers(ps: set<Participant>): set<int> { set p | p in ps :: p.userId }
  function ParticipantAlbums(ps: set<Participant>): set<int> { set p | p in ps :: p.albumId }

  /** `key` is a primary key whose values all lie below the id generator's next value. */
  ghost predicate Keyed<T>(t: seq<T>, key: T -> int, bound: int) {
    UniqueKeys(t, key) && forall k :: k in Column(t, key) ==> k < bound
  }

  ghost predicate KeysValid(s: Store) {
    && Keyed(s.users, UserId, s.nextId)
    && Keyed(s.albums, AlbumId, s.nextId)
    && Keyed(s.images, ImageId, s.nextId)
    && Keyed(s.chats, ChatId, s.nextId)
    && Keyed(s.messages, MessageId, s.nextId)
  }

  /** Every foreign key declared with `foreign_key=` refers to an existing row. */
  ghost predicate RefsValid(s: Store) {
    && Column(s.albums, AlbumOwner) <= Column(s.users, UserId)
    && Column(s.images, ImageAlbum) <= Column(s.albums, AlbumId)
    && Column(s.chats, ChatImage) <= Column(s.images, ImageId)
    && Column(s.messages, MessageSender) <= Column(s.users, UserId)
    && Column(s.messages, MessageChat) <= Column(s.chats, ChatId)
    && ParticipantUsers(s.participants) <= Column(s.users, UserId)
    && ParticipantAlbums(s.participants) <= Column(s.albums, AlbumId)
  }

  ghost predicate Valid(s: Store) {
    KeysValid(s) && RefsValid(s)
  }

  /** Before the first request every table is empty, and the database is consistent. */
  lemma EmptyStoreValid(nextId: int)
    ensures Valid(Store([], [], [], [], [], {}, nextId))
  {
    var s := Store([], [], [], [], [], {}, nextId);
    assert ParticipantUsers(s.participants) == {} && ParticipantAlbums(s.participants) == {};
  }

  /** With the primary keys valid, a row of any table is determined by its id. */
  lemma KeysIdentifyRows(s: Store)
    requires KeysValid(s)
    ensures forall u, v :: u in s.users && v in s.users && u.id == v.id ==> u == v
    ensures forall a, b :: a in s.albums && b in s.albums && a.id == b.id ==> a == b
    ensures forall i, j :: i in s.images && j in s.images && i.id == j.id ==> i == j
    ensures forall c, d :: c in s.chats && d in s.chats && c.id == d.id ==> c == d
    ensures forall m, n :: m in s.messages && n in s.messages && m.id == n.id ==> m == n
  {
    UniqueKeysRows(s.users, UserId);
    UniqueKeysRows(s.albums, AlbumId);
    UniqueKeysRows(s.images, ImageId);
    UniqueKeysRows(s.chats, ChatId);
    UniqueKeysRows(s.messages, MessageId);
  }

  /** The ownership chain: with the foreign keys valid, every message leads through its chat and
      the chat's image to an album and the album's owner. */
  lemma OwnershipChain(s: Store, m: Message)
    requires RefsValid(s) && m in s.messages
    ensures exists c, i, a, u :: && c in s.chats && i in s.images && a in s.albums && u in s.users
                                 && c.id == m.chatId && i.id == c.imageId && a.id == i.albumId && u.id == a.ownerId
  {
    var c := RefTarget(s.messages, MessageChat, s.chats, ChatId, m);
    var i := RefTarget(s.chats, ChatImage, s.images, ImageId, c);
    var a := RefTarget(s.images, ImageAlbum, s.albums, AlbumId, i);
    var u := RefTarget(s.albums, AlbumOwner, s.users, UserId, a);
  }

  /** The row a resolved foreign key refers to. */
  lemma RefTarget<T, U>(t: seq<T>, fk: T -> int, target: seq<U>, key: U -> int, x: T) returns (y: U)
    requires Column(t, fk) <= Column(target, key) && x in t
    ensures y in target && key(y) == fk(x)
  {
    assert fk(x) in Column(t, fk);
    y :| y in target && key(y) == fk(x);
  }

  /** The invariant the get-or-create of a chat keeps, though no constraint enforces it. */
  ghost predicate OneChatPerImage(s: Store) {
    UniqueKeys(s.chats, ChatImage)
  }

  /** The ids of the chats of the given images. */
  function ChatsOfImages(s: Store, imageIds: set<int>): set<int> {
    Column(Select(s.chats, ChatImage, imageIds), ChatId)
  }

  /** The ids of the images of an album. */
  function ImagesOfAlbum(s: Store, albumId: int): set<int> {
    Column(Select(s.images, ImageAlbum, {albumId}), ImageId)
  }

  /** Some message sits in a chat of one of the images. */
  ghost predicate MessagesOnImages(s: Store, imageIds: set<int>) {
    exists m, c :: m in s.messages && c in s.chats && c.imageId in imageIds && m.chatId == c.id
  }

  /** Some message sits in a chat of an image of the album. */
  ghost predicate MessagesInAlbum(s: Store, albumId: int) {
    exists m, c, i :: && m in s.messages && c in s.chats && i in s.images
                      && i.albumId == albumId && c.imageId == i.id && m.chatId == c.id
  }

  /** `db.delete` of the images `imageIds`, then the flush. `Image.chat` cascades the delete to the
      images' chats. `Chat.messages` declares no cascade, so the flush would set the chat_id of their
      messages to NULL, which the NOT NULL column refuses: then the flush fails and nothing changes. */
  function DeleteImages(s: Store, imageIds: set<int>): (r: Result<Store>)
    ensures r.Err? ==> r.status == InternalError
    ensures r.Ok? ==> forall i :: i in r.value.images <==> i in s.images && i.id !in imageIds
    ensures r.Ok? ==> forall c :: c in r.value.chats <==> c in s.chats && c.imageId !in imageIds
    ensures r.Ok? ==> r.value.users == s.users && r.value.albums == s.albums && r.value.messages == s.messages
    ensures r.Ok? ==> r.value.participants == s.participants && r.value.nextId == s.nextId
  {
    if exists m :: m in s.messages && m.chatId in ChatsOfImages(s, imageIds) then Err(InternalError)
    else Ok(s.(images := Drop(s.images, ImageId, imageIds), chats := Drop(s.chats, ChatImage, imageIds)))
  }

  /** `db.delete(album)`, then the flush. `Album.images` cascades to the album's images and, through
      them, to their chats. `Album.participants` declares no cascade, so the flush would blank out
      `album_participants.album_id`, part of that table's primary key, which the ORM refuses. */
  function DeleteAlbumRows(s: Store, albumId: int): (r: Result<Store>)
    ensures r.Err? ==> r.status == InternalError
    ensures albumId in ParticipantAlbums(s.participants) ==> r.Err?
    ensures r.Ok? ==> forall a :: a in r.value.albums <==> a in s.albums && a.id != albumId
    ensures r.Ok? ==> forall i :: i in r.value.images <==> i in s.images && i.id !in ImagesOfAlbum(s, albumId)
    ensures r.Ok? ==> forall c :: c in r.value.chats <==> c in s.chats && c.imageId !in ImagesOfAlbum(s, albumId)
    ensures r.Ok? ==> r.value.users == s.users && r.value.messages == s.messages
    ensures r.Ok? ==> r.value.participants == s.participants && r.value.nextId == s.nextId
  {
    if albumId in ParticipantAlbums(s.participants) then Err(InternalError)
    else
      match DeleteImages(s, ImagesOfAlbum(s, albumId))
      case Err(e) => Err(e)
      case Ok(t) => Ok(t.(albums := Drop(t.albums, AlbumId, {albumId})))
  }

  /** `db.delete(user)`, then the flush. None of `User.albums`, `User.messages` and
      `User.albums_participation` cascades, and each of the columns the flush would blank out
      (`owner_id`, `sender_id`, part of a primary key) refuses NULL. */
  function DeleteUserRow(s: Store, userId: int): (r: Result<Store>)
    ensures r.Err? ==> r.status == InternalError
    ensures r.Ok? ==> forall u :: u in r.value.users <==> u in s.users && u.id != userId
    ensures r.Ok? ==> r.value == s.(users := r.value.users)
  {
    if || (exists a :: a in s.albums && a.ownerId == userId)
       || (exists m :: m in s.messages && m.senderId == userId)
       || (exists p :: p in s.participants && p.userId == userId)
    then Err(InternalError)
    else Ok(s.(users := Drop(s.users, UserId, {userId})))
  }

  /** Deleting images fails exactly when a message sits in a chat of one of them. */
  lemma DeleteImagesFails(s: Store, imageIds: set<int>)
    ensures DeleteImages(s, imageIds).Err? <==> MessagesOnImages(s, imageIds)
  {
    if MessagesOnImages(s, imageIds) {
      var m, c :| m in s.messages && c in s.chats && c.imageId in imageIds && m.chatId == c.id;
      assert c in Select(s.chats, ChatImage, imageIds);
      assert m.chatId in ChatsOfImages(s, imageIds);
    }
  }

  /** A message in a chat of an image of the album is a message on the album's images. */
  lemma MessagesInAlbumOnItsImages(s: Store, albumId: int)
    ensures MessagesInAlbum(s, albumId) <==> MessagesOnImages(s, ImagesOfAlbum(s, albumId))
  {
    var ids := ImagesOfAlbum(s, albumId);
    if MessagesInAlbum(s, albumId) {
      var m, c, i :| && m in s.messages && c in s.chats && i in s.images
                     && i.albumId == albumId && c.imageId == i.id && m.chatId == c.id;
      assert i in Select(s.images, ImageAlbum, {albumId});
      assert c.imageId in ids;
    }
    if MessagesOnImages(s, ids) {
      var m, c :| m in s.messages && c in s.chats && c.imageId in ids && m.chatId == c.id;
      var i :| i in Select(s.images, ImageAlbum, {albumId}) && i.id == c.imageId;
      assert MessagesInAlbum(s, albumId);
    }
  }

  /** Deleting an album fails exactly when someone participates in it or a message sits in a chat
      of one of its images. */
  lemma DeleteAlbumRowsFails(s: Store, albumId: int)
    ensures DeleteAlbumRows(s, albumId).Err? <==>
      (exists p :: p in s.participants && p.albumId == albumId) || MessagesInAlbum(s, albumId)
  {
    DeleteImagesFails(s, ImagesOfAlbum(s, albumId));
    MessagesInAlbumOnItsImages(s, albumId);
    if albumId in ParticipantAlbums(s.participants) {
      var p :| p in s.participants && p.albumId == albumId;
    }
  }

  /** Deleting a user fails exactly when they own an album, have sent a message or participate
      in an album. */
  lemma DeleteUserRowFails(s: Store, userId: int)
    ensures DeleteUserRow(s, userId).Err? <==>
      || (exists a :: a in s.albums && a.ownerId == userId)
      || (exists m :: m in s.messages && m.senderId == userId)
      || (exists p :: p in s.participants && p.userId == userId)
  {
  }

  // ---- Keys and foreign keys under the store's operations ----

  /** The id generator's next value is not in use. */
  lemma FreshId<T>(t: seq<T>, key: T -> int, bound: int)
    requires Keyed(t, key, bound)
    ensures forall x :: x in t ==> key(x) != bound
  {
    forall x | x in t ensures key(x) != bound {
      assert key(x) in Column(t, key);
    }
  }

  lemma KeyedAppend<T>(t: seq<T>, x: T, key: T -> int, bound: int)
    requires Keyed(t, key, bound) && key(x) == bound
    ensures Keyed(t + [x], key, bound + 1)
  {
    FreshId(t, key, bound);
    UniqueKeysAppend(t, x, key);
    ColumnAppend(t, x, key);
  }

  /** A row whose reference resolves keeps a reference column within the keys it may name. */
  lemma RefAppend<T, K>(t: seq<T>, x: T, fk: T -> K, keys: set<K>)
    requires Column(t, fk) <= keys && fk(x) in keys
    ensures Column(t + [x], fk) <= keys
  {
    ColumnAppend(t, x, fk);
  }

  lemma KeyedGrow<T>(t: seq<T>, key: T -> int, bound: int)
    requires Keyed(t, key, bound)
    ensures Keyed(t, key, bound + 1)
  {
  }

  lemma KeyedDrop<T, K>(t: seq<T>, key: T -> int, bound: int, filter: T -> K, vs: set<K>)
    requires Keyed(t, key, bound)
    ensures Keyed(Drop(t, filter, vs), key, bound)
  {
    DropKeepsUniqueKeys(t, key, filter, vs);
    ColumnOfSubset(Drop(t, filter, vs), t, key);
  }

  /** Overwriting the row that holds key `v` with a row holding `v` keeps the key. */
  lemma KeyedReplace<T>(t: seq<T>, key: T -> int, bound: int, v: int, row: T)
    requires Keyed(t, key, bound) && key(row) == v && v in Column(t, key)
    ensures Keyed(Replace(t, key, v, row), key, bound)
  {
    ReplaceKeepsUniqueKeys(t, key, v, row);
    ColumnReplaceKey(t, key, v, row);
  }

  /** The id generator moves on: every key stays below it. */
  lemma KeysValidGrow(s: Store)
    requires KeysValid(s)
    ensures KeysValid(s.(nextId := s.nextId + 1))
  {
    KeyedGrow(s.users, UserId, s.nextId);
    KeyedGrow(s.albums, AlbumId, s.nextId);
    KeyedGrow(s.images, ImageId, s.nextId);
    KeyedGrow(s.chats, ChatId, s.nextId);
    KeyedGrow(s.messages, MessageId, s.nextId);
  }

  /** `db.add` of a user drawn with the next id. */
  lemma InsertUserKeepsValid(s: Store, u: User)
    requires Valid(s) && u.id == s.nextId
    ensures Valid(s.(users := s.users + [u], nextId := s.nextId + 1))
  {
    KeysValidGrow(s);
    KeyedAppend(s.users, u, UserId, s.nextId);
    ColumnAppend(s.users, u, UserId);
  }

  /** `db.add` of an album whose owner exists, drawn with the next id. */
  lemma InsertAlbumKeepsValid(s: Store, a: Album)
    requires Valid(s) && a.id == s.nextId && a.ownerId in Column(s.users, UserId)
    ensures Valid(s.(albums := s.albums + [a], nextId := s.nextId + 1))
  {
    KeysValidGrow(s);
    KeyedAppend(s.albums, a, AlbumId, s.nextId);
    ColumnAppend(s.albums, a, AlbumId);
    ColumnAppend(s.albums, a, AlbumOwner);
  }

  /** `db.add` of an image whose album exists, drawn with the next id. */
  lemma InsertImageKeepsValid(s: Store, i: Image)
    requires Valid(s) && i.id == s.nextId && i.albumId in Column(s.albums, AlbumId)
    ensures Valid(s.(images := s.images + [i], nextId := s.nextId + 1))
  {
    KeysValidGrow(s);
    KeyedAppend(s.images, i, ImageId, s.nextId);
    ColumnAppend(s.images, i, ImageId);
    ColumnAppend(s.images, i, ImageAlbum);
  }

  /** `db.add` of a chat whose image exists, drawn with the next id. */
  lemma InsertChatKeepsValid(s: Store, c: Chat)
    requires Valid(s) && c.id == s.nextId && c.imageId in Column(s.images, ImageId)
    ensures Valid(s.(chats := s.chats + [c], nextId := s.nextId + 1))
  {
    KeysValidGrow(s);
    KeyedAppend(s.chats, c, ChatId, s.nextId);
    ColumnAppend(s.chats, c, ChatId);
    ColumnAppend(s.chats, c, ChatImage);
  }

  /** `db.add` of a message whose sender and chat exist, drawn with the next id. */
  lemma InsertMessageKeepsValid(s: Store, m: Message)
    requires Valid(s) && m.id == s.nextId
    requires m.senderId in Column(s.users, UserId) && m.chatId in Column(s.chats, ChatId)
    ensures Valid(s.(messages := s.messages + [m], nextId := s.nextId + 1))
  {
    KeysValidGrow(s);
    KeyedAppend(s.messages, m, MessageId, s.nextId);
    RefAppend(s.messages, m, MessageSender, Column(s.users, UserId));
    RefAppend(s.messages, m, MessageChat, Column(s.chats, ChatId));
  }

  /** Overwriting an image in place, keeping its id and album. */
  lemma ReplaceImageKeepsValid(s: Store, id: int, i: Image)
    requires Valid(s) && i.id == id && id in Column(s.images, ImageId)
    requires i.albumId in Column(s.albums, AlbumId)
    ensures Valid(s.(images := Replace(s.images, ImageId, id, i)))
  {
    KeyedReplace(s.images, ImageId, s.nextId, id, i);
    ColumnReplace(s.images, ImageId, id, i, ImageAlbum);
  }

  /** Overwriting an album in place, keeping its id and an existing owner. */
  lemma ReplaceAlbumKeepsValid(s: Store, id: int, a: Album)
    requires Valid(s) && a.id == id && id in Column(s.albums, AlbumId)
    requires a.ownerId in Column(s.users, UserId)
    ensures Valid(s.(albums := Replace(s.albums, AlbumId, id, a)))
  {
    KeyedReplace(s.albums, AlbumId, s.nextId, id, a);
    ColumnReplace(s.albums, AlbumId, id, a, AlbumOwner);
  }

  /** Overwriting a user in place, keeping the id. */
  lemma ReplaceUserKeepsValid(s: Store, id: int, u: User)
    requires Valid(s) && u.id == id && id in Column(s.users, UserId)
    ensures Valid(s.(users := Replace(s.users, UserId, id, u)))
  {
    KeyedReplace(s.users, UserId, s.nextId, id, u);
  }

  /** Deleting a participant row. */
  lemma RemoveParticipantKeepsValid(s: Store, p: Participant)
    requires Valid(s)
    ensures Valid(s.(participants := s.participants - {p}))
  {
    var t := s.(participants := s.participants - {p});
    assert ParticipantUsers(t.participants) <= ParticipantUsers(s.participants);
    assert ParticipantAlbums(t.participants) <= ParticipantAlbums(s.participants);
  }

  lemma DeleteImagesKeepsValid(s: Store, imageIds: set<int>)
    requires Valid(s) && DeleteImages(s, imageIds).Ok?
    ensures Valid(DeleteImages(s, imageIds).value)
  {
    var t := DeleteImages(s, imageIds).value;
    assert KeysValid(t) by {
      KeyedDrop(s.images, ImageId, s.nextId, ImageId, imageIds);
      KeyedDrop(s.chats, ChatId, s.nextId, ChatImage, imageIds);
    }
    var gone := ChatsOfImages(s, imageIds);
    forall c | c in s.chats && c.imageId in imageIds ensures c.id in gone {
      assert c in Select(s.chats, ChatImage, imageIds);
    }
    ColumnOfSubset(t.images, s.images, ImageAlbum);
    RefAfterDrop(s.chats, ChatImage, s.images, ImageId, t.chats, t.images, imageIds);
    RefAfterDrop(s.messages, MessageChat, s.chats, ChatId, t.messages, t.chats, gone);
  }

  /** The cascade from an album: none of its images remains, and, ids being unique, every other image does. */
  lemma DeleteAlbumRowsDropsItsImages(s: Store, albumId: int)
    requires DeleteAlbumRows(s, albumId).Ok?
    ensures forall i :: i in DeleteAlbumRows(s, albumId).value.images ==> i.albumId != albumId
    ensures UniqueKeys(s.images, ImageId) ==>
      forall i :: i in DeleteAlbumRows(s, albumId).value.images <==> i in s.images && i.albumId != albumId
  {
    var ids := ImagesOfAlbum(s, albumId);
    forall i | i in s.images && i.albumId == albumId ensures i.id in ids {
      assert i in Select(s.images, ImageAlbum, {albumId});
    }
    if UniqueKeys(s.images, ImageId) {
      forall i | i in s.images && i.albumId != albumId ensures i.id !in ids {
        FindKey(s.images, ImageId, i);
        forall j | j in Select(s.images, ImageAlbum, {albumId}) ensures j.id != i.id {
          FindKey(s.images, ImageId, j);
        }
      }
    }
  }

  lemma DeleteAlbumRowsKeepsValid(s: Store, albumId: int)
    requires Valid(s) && DeleteAlbumRows(s, albumId).Ok?
    ensures Valid(DeleteAlbumRows(s, albumId).value)
  {
    var ids := ImagesOfAlbum(s, albumId);
    DeleteImagesKeepsValid(s, ids);
    var t := DeleteImages(s, ids).value;
    var u := DeleteAlbumRows(s, albumId).value;
    assert u == t.(albums := Drop(t.albums, AlbumId, {albumId}));
    assert KeysValid(u) by {
      KeyedDrop(t.albums, AlbumId, t.nextId, AlbumId, {albumId});
    }
    DeleteAlbumRowsDropsItsImages(s, albumId);
    ColumnOfSubset(u.albums, t.albums, AlbumOwner);
    RefAfterDrop(t.images, ImageAlbum, t.albums, AlbumId, u.images, u.albums, {albumId});
    forall k | k in ParticipantAlbums(u.participants) ensures k in Column(u.albums, AlbumId) {
      var a :| a in t.albums && a.id == k;
      assert a in u.albums;
    }
  }

  lemma DeleteUserRowKeepsValid(s: Store, userId: int)
    requires Valid(s) && DeleteUserRow(s, userId).Ok?
    ensures Valid(DeleteUserRow(s, userId).value)
  {
    var t := DeleteUserRow(s, userId).value;
    assert KeysValid(t) by {
      KeyedDrop(s.users, UserId, s.nextId, UserId, {userId});
    }
    RefAfterDrop(s.albums, AlbumOwner, s.users, UserId, t.albums, t.users, {userId});
    RefAfterDrop(s.messages, MessageSender, s.users, UserId, t.messages, t.users, {userId});
    forall k | k in ParticipantUsers(t.participants) ensures k in Column(t.users, UserId) {
      var u :| u in s.users && u.id == k;
      assert u in t.users;
    }
  }
}
