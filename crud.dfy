/** The helpers of app/crud.py. The `create_*` helpers insert through the session; the `get_*`
    helpers are lookups on the database as a value. */
module Crud {
  import opened Wrappers
  import opened Tables
  import opened Models
  import opened Schemas
  import opened Db

  /** `create_user`: stores the password exactly as given; hashing is the caller's business. */
  method CreateUser(db: Session, user: UserCreate) returns (u: User)
    modifies db
    ensures u == User(old(db.nextId), user.email, user.username, user.password)
    ensures db.Snapshot() == old(db.Snapshot()).(users := old(db.users) + [u], nextId := old(db.nextId) + 1)
  {
    u := db.AddUser(user.email, user.username, user.password);
  }

  /** `get_user`: `db.get` by primary key. */
  function GetUser(s: Store, userId: int): (r: Option<User>)
    ensures r.Some? ==> r.value in s.users && r.value.id == userId
    ensures r.None? <==> forall u :: u in s.users ==> u.id != userId
  {
    Find(s.users, UserId, userId)
  }

  /** A user just created is found under the id it was given. */
  lemma GetUserAfterCreate(s: Store, u: User)
    requires KeysValid(s) && u.id == s.nextId
    ensures GetUser(s.(users := s.users + [u], nextId := s.nextId + 1), u.id) == Some(u)
  {
    FreshId(s.users, UserId, s.nextId);
    FindAppend(s.users, u, UserId, u.id);
  }

  /** `create_message` as its callers mean it: the message of `sender` in the chat named by the
      body, sent at `now`. (The helper as written reads `message.sender_id`, which `MessageCreate`
      does not declare.) */
  method CreateMessage(db: Session, message: MessageCreate, senderId: int, now: Timestamp) returns (m: Message)
    modifies db
    ensures m == Message(old(db.nextId), message.content, now, senderId, message.chatId)
    ensures db.Snapshot() == old(db.Snapshot()).(messages := old(db.messages) + [m], nextId := old(db.nextId) + 1)
  {
    m := db.AddMessage(message.content, now, senderId, message.chatId);
  }

  /** `get_messages`: every message of the chat, in table order. */
  function GetMessages(s: Store, chatId: int): (r: seq<Message>)
    ensures forall m :: m in r <==> m in s.messages && m.chatId == chatId
  {
    Select(s.messages, MessageChat, {chatId})
  }

  /** A new message is listed last among the messages of its chat, and no other chat's list changes. */
  lemma GetMessagesAfterAdd(s: Store, m: Message, chatId: int)
    ensures GetMessages(s.(messages := s.messages + [m]), chatId) ==
      GetMessages(s, chatId) + if m.chatId == chatId then [m] else []
  {
    SelectAppend(s.messages, m, MessageChat, {chatId});
  }

  /** `create_chat`: the new chat's image id is the body's album id, unchecked. */
  method CreateChat(db: Session, chat: ChatCreate, now: Timestamp) returns (c: Chat)
    modifies db
    ensures c == Chat(old(db.nextId), chat.albumId, now)
    ensures db.Snapshot() == old(db.Snapshot()).(chats := old(db.chats) + [c], nextId := old(db.nextId) + 1)
  {
    c := db.AddChat(chat.albumId, now);
  }

  /** An album id that is no image id leaves the new chat pointing at no image. */
  lemma CreateChatDangles(s: Store, chat: ChatCreate, now: Timestamp)
    requires chat.albumId !in Column(s.images, ImageId)
    ensures !RefsValid(s.(chats := s.chats + [Chat(s.nextId, chat.albumId, now)], nextId := s.nextId + 1))
  {
    var c := Chat(s.nextId, chat.albumId, now);
    assert ChatImage(c) in Column(s.chats + [c], ChatImage) by {
      assert c in s.chats + [c];
    }
  }

  /** `get_chat`: the first chat with both that id and that image. */
  function GetChat(s: Store, chatId: int, imageId: int): (r: Option<Chat>)
    ensures r.Some? ==> r.value in s.chats && r.value.id == chatId && r.value.imageId == imageId
    ensures r.None? <==> forall c :: c in s.chats ==> !(c.id == chatId && c.imageId == imageId)
  {
    Find(s.chats, ChatKey, (chatId, imageId))
  }

  /** With chat ids unique, a stored chat is found under its own image only. */
  lemma GetChatOwnImage(s: Store, c: Chat, imageId: int)
    requires UniqueKeys(s.chats, ChatId) && c in s.chats
    ensures GetChat(s, c.id, imageId) == if imageId == c.imageId then Some(c) else None
  {
    if GetChat(s, c.id, imageId).Some? {
      var d := GetChat(s, c.id, imageId).value;
      FindKey(s.chats, ChatId, c);
      FindKey(s.chats, ChatId, d);
    }
  }

  /** `create_album`: titled as asked, owned by `ownerId`. */
  method CreateAlbum(db: Session, title: string, ownerId: int, now: Timestamp) returns (a: Album)
    modifies db
    ensures a == Album(old(db.nextId), title, now, ownerId)
    ensures db.Snapshot() == old(db.Snapshot()).(albums := old(db.albums) + [a], nextId := old(db.nextId) + 1)
  {
    a := db.AddAlbum(title, now, ownerId);
  }

  /** `get_album`: `db.get` by primary key. */
  function GetAlbum(s: Store, albumId: int): (r: Option<Album>)
    ensures r.Some? ==> r.value in s.albums && r.value.id == albumId
    ensures r.None? <==> forall a :: a in s.albums ==> a.id != albumId
  {
    Find(s.albums, AlbumId, albumId)
  }

  /** With album ids unique, every stored album is found under its id. */
  lemma GetAlbumFindsStored(s: Store, a: Album)
    requires UniqueKeys(s.albums, AlbumId) && a in s.albums
    ensures GetAlbum(s, a.id) == Some(a)
  {
    FindKey(s.albums, AlbumId, a);
  }
}
