/** The SQLModel session the route handlers receive from `get_db`: the tables, changed in place by
    `db.add`, `db.delete` and attribute assignment, each followed by `db.commit()`. */
module Db {
  import opened Http
  import opened Tables
  import opened Models
  import opened Wrappers

  class Session {
    var users: seq<User>
    var albums: seq<Album>
    var images: seq<Image>
    var chats: seq<Chat>
    var messages: seq<Message>
    var participants: set<Participant>
    var nextId: int

    /** The tables as a value, for the transitions that specify the handlers. */
    function Snapshot(): Store
      reads this
    {
      Store(users, albums, images, chats, messages, participants, nextId)
    }

    constructor (s: Store)
      ensures Snapshot() == s
    {
      users, albums, images, chats := s.users, s.albums, s.images, s.chats;
      messages, participants, nextId := s.messages, s.participants, s.nextId;
    }

    /** `db.add`, `db.commit`, `db.refresh` of a new user: the database hands out the next id. */
    method AddUser(email: string, username: string, password: string) returns (u: User)
      modifies this
      ensures u == User(old(nextId), email, username, password)
      ensures Snapshot() == old(Snapshot()).(users := old(users) + [u], nextId := old(nextId) + 1)
    {
      u := User(nextId, email, username, password);
      users := users + [u];
      nextId := nextId + 1;
    }

    method AddAlbum(title: string, createdAt: Timestamp, ownerId: int) returns (a: Album)
      modifies this
      ensures a == Album(old(nextId), title, createdAt, ownerId)
      ensures Snapshot() == old(Snapshot()).(albums := old(albums) + [a], nextId := old(nextId) + 1)
    {
      a := Album(nextId, title, createdAt, ownerId);
      albums := albums + [a];
      nextId := nextId + 1;
    }

    method AddImage(title: string, description: Option<string>, path: string, albumId: int) returns (i: Image)
      modifies this
      ensures i == Image(old(nextId), title, description, path, albumId)
      ensures Snapshot() == old(Snapshot()).(images := old(images) + [i], nextId := old(nextId) + 1)
    {
      i := Image(nextId, title, description, path, albumId);
      images := images + [i];
      nextId := nextId + 1;
    }

    method AddChat(imageId: int, createdAt: Timestamp) returns (c: Chat)
      modifies this
      ensures c == Chat(old(nextId), imageId, createdAt)
      ensures Snapshot() == old(Snapshot()).(chats := old(chats) + [c], nextId := old(nextId) + 1)
    {
      c := Chat(nextId, imageId, createdAt);
      chats := chats + [c];
      nextId := nextId + 1;
    }

    method AddMessage(content: string, sentAt: Timestamp, senderId: int, chatId: int) returns (m: Message)
      modifies this
      ensures m == Message(old(nextId), content, sentAt, senderId, chatId)
      ensures Snapshot() == old(Snapshot()).(messages := old(messages) + [m], nextId := old(nextId) + 1)
    {
      m := Message(nextId, content, sentAt, senderId, chatId);
      messages := messages + [m];
      nextId := nextId + 1;
    }

    /** An image row whose attributes were assigned, committed: `UPDATE images ... WHERE id = row.id`. */
    method SaveImage(row: Image)
      modifies this
      ensures Snapshot() == old(Snapshot()).(images := Replace(old(images), ImageId, row.id, row))
    {
      images := Replace(images, ImageId, row.id, row);
    }

    method SaveAlbum(row: Album)
      modifies this
      ensures Snapshot() == old(Snapshot()).(albums := Replace(old(albums), AlbumId, row.id, row))
    {
      albums := Replace(albums, AlbumId, row.id, row);
    }

    method SaveUser(row: User)
      modifies this
      ensures Snapshot() == old(Snapshot()).(users := Replace(old(users), UserId, row.id, row))
    {
      users := Replace(users, UserId, row.id, row);
    }

    /** `db.delete(image)` and the commit, with the cascade to the image's chat. A chat that still has
        messages makes the flush fail; the session then changes nothing. */
    method DeleteImage(id: int) returns (r: Outcome)
      modifies this
      ensures Models.DeleteImages(old(Snapshot()), {id}).Err? ==>
        r == Raise(InternalError) && Snapshot() == old(Snapshot())
      ensures Models.DeleteImages(old(Snapshot()), {id}).Ok? ==>
        r == Pass && Snapshot() == Models.DeleteImages(old(Snapshot()), {id}).value
    {
      var gone := ChatsOfImages(Snapshot(), {id});
      if exists m :: m in messages && m.chatId in gone {
        r := Raise(InternalError);
      } else {
        images := Drop(images, ImageId, {id});
        chats := Drop(chats, ChatImage, {id});
        r := Pass;
      }
    }

    /** `db.delete(album)` and the commit, with the cascade to the album's images and their chats. */
    method DeleteAlbum(id: int) returns (r: Outcome)
      modifies this
      ensures DeleteAlbumRows(old(Snapshot()), id).Err? ==>
        r == Raise(InternalError) && Snapshot() == old(Snapshot())
      ensures DeleteAlbumRows(old(Snapshot()), id).Ok? ==>
        r == Pass && Snapshot() == DeleteAlbumRows(old(Snapshot()), id).value
    {
      if id in ParticipantAlbums(participants) {
        return Raise(InternalError);
      }
      var ids := ImagesOfAlbum(Snapshot(), id);
      var gone := ChatsOfImages(Snapshot(), ids);
      if exists m :: m in messages && m.chatId in gone {
        return Raise(InternalError);
      }
      images := Drop(images, ImageId, ids);
      chats := Drop(chats, ChatImage, ids);
      albums := Drop(albums, AlbumId, {id});
      r := Pass;
    }

    /** `db.delete(user)` and the commit; any album, message or participation of the user makes the
        flush fail. */
    method DeleteUser(id: int) returns (r: Outcome)
      modifies this
      ensures DeleteUserRow(old(Snapshot()), id).Err? ==>
        r == Raise(InternalError) && Snapshot() == old(Snapshot())
      ensures DeleteUserRow(old(Snapshot()), id).Ok? ==>
        r == Pass && Snapshot() == DeleteUserRow(old(Snapshot()), id).value
    {
      if || (exists a :: a in albums && a.ownerId == id)
         || (exists m :: m in messages && m.senderId == id)
         || (exists p :: p in participants && p.userId == id)
      {
        return Raise(InternalError);
      }
      users := Drop(users, UserId, {id});
      r := Pass;
    }

    /** `db.delete(participant)` and the commit. */
    method DeleteParticipant(p: Participant)
      modifies this
      ensures Snapshot() == old(Snapshot()).(participants := old(participants) - {p})
    {
      participants := participants - {p};
    }
  }
}
