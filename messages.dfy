/** app/routes/messages.py: the registry of live chat connections, the chat and message routes,
    and the websocket handler that stores and broadcasts what a client sends. */
module Messages {
  import opened Wrappers
  import opened Http
  import opened Tables
  import opened Models
  import opened Schemas
  import opened Concurrent
  import opened Db
  import Crud

  // ---- The connection registry ----

  /** An open websocket, known by identity only. */
  datatype Conn = Conn(id: int)

  /** The JSON object broadcast for a stored message. */
  datatype Frame = Frame(id: int, content: string, sentAt: Timestamp, senderId: int, chatId: int)

  /** What the server does on a socket: accept it, or send it a JSON frame. */
  datatype Event = Accepted(conn: Conn) | Sent(conn: Conn, frame: Frame)

  /** `connections.get(chat_id, [])`. */
  function Listeners(connections: map<int, seq<Conn>>, chatId: int): seq<Conn> {
    if chatId in connections then connections[chatId] else []
  }

  /** One `send_json` of `f` to each connection, in list order. */
  function Sends(conns: seq<Conn>, f: Frame): seq<Event> {
    seq(|conns|, i requires 0 <= i < |conns| => Sent(conns[i], f))
  }

  /** Where `x` first occurs in `xs`, or |xs| when it does not. */
  function Position(xs: seq<Conn>, x: Conn): (r: nat)
    ensures r <= |xs|
    ensures forall j :: 0 <= j < r ==> xs[j] != x
    ensures r < |xs| ==> xs[r] == x
    decreases |xs|
  {
    if xs == [] then 0
    else if xs[0] == x then 0
    else 1 + Position(xs[1..], x)
  }

  /** `list.remove`: the list without the first occurrence of `x`. */
  function RemoveFirst(xs: seq<Conn>, x: Conn): (r: seq<Conn>)
    requires x in xs
    ensures |r| == |xs| - 1
    ensures multiset(r) == multiset(xs) - multiset{x}
  {
    var i := Position(xs, x);
    assert xs == xs[..i] + [x] + xs[i + 1..];
    xs[..i] + xs[i + 1..]
  }

  /** The occurrence `list.remove` takes out is the first one. */
  lemma RemoveFirstAt(xs: seq<Conn>, x: Conn, i: int)
    requires 0 <= i < |xs| && xs[i] == x
    requires forall j :: 0 <= j < i ==> xs[j] != x
    ensures RemoveFirst(xs, x) == xs[..i] + xs[i + 1..]
  {
    var p := Position(xs, x);
    assert !(p < i) && !(i < p);
  }

  /** Appending a connection to a list that does not hold it and removing it again gives the list back. */
  lemma RemoveFirstLast(xs: seq<Conn>, x: Conn)
    requires x !in xs
    ensures RemoveFirst(xs + [x], x) == xs
  {
    RemoveFirstAt(xs + [x], x, |xs|);
    assert (xs + [x])[..|xs|] == xs;
  }

  /** The scan `list.remove` makes: the position of the first occurrence of `x`, or |xs|. */
  method IndexOf(xs: seq<Conn>, x: Conn) returns (i: int)
    ensures 0 <= i <= |xs|
    ensures i < |xs| ==> xs[i] == x
    ensures forall j :: 0 <= j < i ==> xs[j] != x
  {
    i := 0;
    while i < |xs| && xs[i] != x
      invariant 0 <= i <= |xs|
      invariant forall j :: 0 <= j < i ==> xs[j] != x
    {
      i := i + 1;
    }
  }

  /** Removing a chat, or giving it a non-empty list, keeps every listed chat non-empty. */
  lemma NonEmptyAfterRemove(m: map<int, seq<Conn>>, chatId: int, rest: seq<Conn>, after: map<int, seq<Conn>>)
    requires forall c :: c in m ==> m[c] != []
    requires after == if rest == [] then m - {chatId} else m[chatId := rest]
    ensures forall c :: c in after ==> after[c] != []
  {
  }

  /** `ConnectionManager`: the open websockets of each chat, and the log of what was sent on them. */
  class ConnectionManager {
    var connections: map<int, seq<Conn>>
    var outbox: seq<Event>

    /** No chat is kept with an empty list. */
    ghost predicate Valid()
      reads this
    {
      forall c :: c in connections ==> connections[c] != []
    }

    constructor ()
      ensures connections == map[] && outbox == []
      ensures Valid()
    {
      connections := map[];
      outbox := [];
    }

    /** `connect`: accept the socket, then `setdefault(chat_id, []).append(websocket)`. */
    method Connect(chatId: int, ws: Conn)
      requires Valid()
      modifies this
      ensures connections == old(connections)[chatId := Listeners(old(connections), chatId) + [ws]]
      ensures outbox == old(outbox) + [Accepted(ws)]
      ensures Valid()
    {
      outbox := outbox + [Accepted(ws)];
      var list := if chatId in connections then connections[chatId] else [];
      connections := connections[chatId := list + [ws]];
    }

    /** `disconnect`: nothing happens for an unknown chat. Otherwise the first occurrence of the
        socket leaves the chat's list, and the chat leaves the map once its list is empty. A socket
        that is not in the list makes `list.remove` raise ValueError (`raised`), changing nothing. */
    method Disconnect(chatId: int, ws: Conn) returns (raised: bool)
      requires Valid()
      modifies this
      ensures Valid()
      ensures outbox == old(outbox)
      ensures chatId !in old(connections) ==> !raised && connections == old(connections)
      ensures chatId in old(connections) && ws !in old(connections)[chatId] ==>
        raised && connections == old(connections)
      ensures chatId in old(connections) && ws in old(connections)[chatId] ==>
        (!raised &&
         var rest := RemoveFirst(old(connections)[chatId], ws);
         connections == if rest == [] then old(connections) - {chatId} else old(connections)[chatId := rest])
    {
      if chatId !in connections {
        return false;
      }
      var list := connections[chatId];
      var i := IndexOf(list, ws);
      if i == |list| {
        assert ws !in list;
        return true;
      }
      RemoveFirstAt(list, ws, i);
      var rest := list[..i] + list[i + 1..];
      ghost var before := connections;
      if rest == [] {
        connections := connections - {chatId};
      } else {
        connections := connections[chatId := rest];
      }
      NonEmptyAfterRemove(before, chatId, rest, connections);
      raised := false;
    }

    /** `broadcast`: `send_json(message)` to every connection of the chat, in list order. */
    method Broadcast(chatId: int, f: Frame)
      modifies this
      ensures connections == old(connections)
      ensures outbox == old(outbox) + Sends(Listeners(old(connections), chatId), f)
    {
      var list := if chatId in connections then connections[chatId] else [];
      for i := 0 to |list|
        invariant connections == old(connections)
        invariant outbox == old(outbox) + Sends(list[..i], f)
      {
        assert Sends(list[..i + 1], f) == Sends(list[..i], f) + [Sent(list[i], f)];
        outbox := outbox + [Sent(list[i], f)];
      }
      assert list[..|list|] == list;
    }
  }

  /** A connection that joins and leaves again, with no one else leaving meanwhile, leaves the
      registry as it found it. */
  lemma ConnectThenDisconnect(connections: map<int, seq<Conn>>, chatId: int, ws: Conn)
    requires forall c :: c in connections ==> connections[c] != []
    requires ws !in Listeners(connections, chatId)
    ensures var joined := connections[chatId := Listeners(connections, chatId) + [ws]];
      var rest := RemoveFirst(joined[chatId], ws);
      (if rest == [] then joined - {chatId} else joined[chatId := rest]) == connections
  {
    var list := Listeners(connections, chatId);
    RemoveFirstLast(list, ws);
    var joined := connections[chatId := list + [ws]];
    if chatId in connections {
      assert list == connections[chatId] && list != [];
      MapOverwriteTwice(connections, chatId, list + [ws], list);
    } else {
      assert list == [];
      MapAddThenRemove(connections, chatId, [ws]);
    }
  }

  lemma MapOverwriteTwice<K, V>(m: map<K, V>, k: K, v: V, w: V)
    requires k in m && m[k] == w
    ensures m[k := v][k := w] == m
  {
  }

  lemma MapAddThenRemove<K, V>(m: map<K, V>, k: K, v: V)
    requires k !in m
    ensures m[k := v] - {k} == m
  {
  }

  // ---- Chats ----

  /** `create_chat` (POST): 404 for a missing image, then the gate on the image's album
      (`verify_album_access`); the image's chat if it has one, else one new chat for it. */
  function CreateChat(s: Store, imageId: int, me: int, now: Timestamp): (r: Step<Chat>)
    ensures r.result.Err? ==> r.store == s
    ensures (forall i :: i in s.images ==> i.id != imageId) ==> r.result == Err(NotFound)
    ensures r.result.Ok? <==>
      Find(s.images, ImageId, imageId).Some? && AlbumGate(s, Find(s.images, ImageId, imageId).value.albumId, me).Ok?
    ensures var image := Find(s.images, ImageId, imageId);
      image.Some? && AlbumGate(s, image.value.albumId, me).Err? ==>
        r.result == Err(AlbumGate(s, image.value.albumId, me).status)
    ensures r.result.Ok? ==> r.result.value.imageId == imageId && r.result.value in r.store.chats
    ensures r.result.Ok? && (exists c :: c in s.chats && c.imageId == imageId) ==>
      r.store == s && r.result.value in s.chats
    ensures r.result.Ok? && (forall c :: c in s.chats ==> c.imageId != imageId) ==>
      r.result.value == Chat(s.nextId, imageId, now) &&
      r.store == s.(chats := s.chats + [r.result.value], nextId := s.nextId + 1)
  {
    match Find(s.images, ImageId, imageId)
    case None => Step(Err(NotFound), s)
    case Some(image) =>
      match AlbumGate(s, image.albumId, me)
      case Err(e) => Step(Err(e), s)
      case Ok(_) =>
        match Find(s.chats, ChatImage, imageId)
        case Some(chat) => Step(Ok(chat), s)
        case None =>
          var chat := Chat(s.nextId, imageId, now);
          Step(Ok(chat), s.(chats := s.chats + [chat], nextId := s.nextId + 1))
  }

  /** Get-or-create is idempotent: a second call returns the same chat and adds nothing. */
  lemma CreateChatIdempotent(s: Store, imageId: int, me: int, now: Timestamp, later: Timestamp)
    requires CreateChat(s, imageId, me, now).result.Ok?
    ensures var r := CreateChat(s, imageId, me, now);
      CreateChat(r.store, imageId, me, later) == r
  {
    var r := CreateChat(s, imageId, me, now);
    assert r.store.images == s.images && r.store.albums == s.albums && r.store.participants == s.participants;
    var image := Find(s.images, ImageId, imageId).value;
    assert AlbumGate(r.store, image.albumId, me) == AlbumGate(s, image.albumId, me);
    if Find(s.chats, ChatImage, imageId).None? {
      FindAppend(s.chats, r.result.value, ChatImage, imageId);
    }
  }

  /** Get-or-create never gives an image a second chat. */
  lemma CreateChatKeepsOneChatPerImage(s: Store, imageId: int, me: int, now: Timestamp)
    requires OneChatPerImage(s)
    ensures OneChatPerImage(CreateChat(s, imageId, me, now).store)
  {
    var r := CreateChat(s, imageId, me, now);
    if r.store != s {
      UniqueKeysAppend(s.chats, r.result.value, ChatImage);
    }
  }

  lemma CreateChatKeepsValid(s: Store, imageId: int, me: int, now: Timestamp)
    requires Valid(s)
    ensures Valid(CreateChat(s, imageId, me, now).store)
  {
    var r := CreateChat(s, imageId, me, now);
    if r.store != s {
      var image := Find(s.images, ImageId, imageId).value;
      assert ImageId(image) in Column(s.images, ImageId);
      InsertChatKeepsValid(s, r.result.value);
    }
  }

  /** `get_chat` (GET): the chat is looked up before the image, the rest as in `create_chat`.
      Reading the chat first changes nothing: both routes are the same get-or-create. */
  function GetChat(s: Store, imageId: int, me: int, now: Timestamp): (r: Step<Chat>)
    ensures r == CreateChat(s, imageId, me, now)
  {
    var chat := Find(s.chats, ChatImage, imageId);
    match Find(s.images, ImageId, imageId)
    case None => Step(Err(NotFound), s)
    case Some(image) =>
      match AlbumGate(s, image.albumId, me)
      case Err(e) => Step(Err(e), s)
      case Ok(_) =>
        if chat.None? then
          var created := Chat(s.nextId, imageId, now);
          Step(Ok(created), s.(chats := s.chats + [created], nextId := s.nextId + 1))
        else Step(Ok(chat.value), s)
  }

  // ---- Messages ----

  /** The chain that `create_message` and `read_messages` share: 404 for a missing chat, 404 for
      a missing image of the chat, then the gate on the image's album. */
  function ChatAccess(s: Store, chatId: int, me: int): (r: Result<Image>)
    ensures (forall c :: c in s.chats ==> c.id != chatId) ==> r == Err(NotFound)
    ensures r.Err? ==> r.status == NotFound || r.status == Forbidden
    ensures r.Ok? ==> r.value in s.images && AlbumGate(s, r.value.albumId, me).Ok?
    ensures r.Ok? ==> exists c :: c in s.chats && c.id == chatId && c.imageId == r.value.id
    ensures var chat := Find(s.chats, ChatId, chatId);
      chat.Some? && Find(s.images, ImageId, chat.value.imageId).None? ==> r == Err(NotFound)
    ensures var chat := Find(s.chats, ChatId, chatId);
      var image := if chat.Some? then Find(s.images, ImageId, chat.value.imageId) else None;
      image.Some? ==>
        && (r.Ok? <==> AlbumGate(s, image.value.albumId, me).Ok?)
        && (r.Err? ==> r.status == AlbumGate(s, image.value.albumId, me).status)
  {
    match Find(s.chats, ChatId, chatId)
    case None => Err(NotFound)
    case Some(chat) =>
      match Find(s.images, ImageId, chat.imageId)
      case None => Err(NotFound)
      case Some(image) =>
        match AlbumGate(s, image.albumId, me)
        case Err(e) => Err(e)
        case Ok(_) => Ok(image)
  }

  /** `create_message` (POST): after the chain, one new message with the body's content, the chat
      from the URL and the current user as sender. Nothing is written on an error. */
  function CreateMessage(s: Store, chatId: int, message: MessageCreate, me: int, now: Timestamp): (r: Step<Message>)
    ensures r.result.Err? ==> r.store == s
    ensures r.result.Err? <==> ChatAccess(s, chatId, me).Err?
    ensures r.result.Err? ==> r.result.status == ChatAccess(s, chatId, me).status
    ensures r.result.Ok? ==> r.result.value == Message(s.nextId, message.content, now, me, chatId)
    ensures r.result.Ok? ==> r.store == s.(messages := s.messages + [r.result.value], nextId := s.nextId + 1)
  {
    match ChatAccess(s, chatId, me)
    case Err(e) => Step(Err(e), s)
    case Ok(_) =>
      var m := Message(s.nextId, message.content, now, me, chatId);
      Step(Ok(m), s.(messages := s.messages + [m], nextId := s.nextId + 1))
  }

  lemma CreateMessageKeepsValid(s: Store, chatId: int, message: MessageCreate, me: int, now: Timestamp)
    requires Valid(s) && me in Column(s.users, UserId)
    ensures Valid(CreateMessage(s, chatId, message, me, now).store)
  {
    var r := CreateMessage(s, chatId, message, me, now);
    if r.result.Ok? {
      var c :| c in s.chats && c.id == chatId;
      assert ChatId(c) in Column(s.chats, ChatId);
      InsertMessageKeepsValid(s, r.result.value);
    }
  }

  /** `read_messages`: after the chain, exactly the messages of the chat. */
  function ReadMessages(s: Store, chatId: int, me: int): (r: Result<seq<Message>>)
    ensures r.Err? <==> ChatAccess(s, chatId, me).Err?
    ensures r.Err? ==> r.status == ChatAccess(s, chatId, me).status
    ensures r.Ok? ==> forall m :: m in r.value <==> m in s.messages && m.chatId == chatId
  {
    match ChatAccess(s, chatId, me)
    case Err(e) => Err(e)
    case Ok(_) => Ok(Crud.GetMessages(s, chatId))
  }

  /** A message just posted is the last one read back from its chat. */
  lemma CreateMessageThenRead(s: Store, chatId: int, message: MessageCreate, me: int, now: Timestamp)
    requires CreateMessage(s, chatId, message, me, now).result.Ok?
    ensures var r := CreateMessage(s, chatId, message, me, now);
      ReadMessages(r.store, chatId, me) == Ok(ReadMessages(s, chatId, me).value + [r.result.value])
  {
    var r := CreateMessage(s, chatId, message, me, now);
    assert ChatAccess(r.store, chatId, me) == ChatAccess(s, chatId, me) by {
      assert r.store.chats == s.chats && r.store.images == s.images;
      assert r.store.albums == s.albums && r.store.participants == s.participants;
      var chat := Find(s.chats, ChatId, chatId).value;
      var image := Find(s.images, ImageId, chat.imageId).value;
      assert AlbumGate(r.store, image.albumId, me) == AlbumGate(s, image.albumId, me);
    }
    Crud.GetMessagesAfterAdd(s, r.result.value, chatId);
  }

  // ---- The writing handlers, performed on the session ----

  method HandleCreateChat(db: Session, imageId: int, me: int, now: Timestamp) returns (r: Result<Chat>)
    modifies db
    ensures r == CreateChat(old(db.Snapshot()), imageId, me, now).result
    ensures db.Snapshot() == CreateChat(old(db.Snapshot()), imageId, me, now).store
  {
    var image := Find(db.images, ImageId, imageId);
    if image.None? {
      return Err(NotFound);
    }
    var gate := AlbumGate(db.Snapshot(), image.value.albumId, me);
    if gate.Err? {
      return Err(gate.status);
    }
    var chat := Find(db.chats, ChatImage, imageId);
    if chat.Some? {
      return Ok(chat.value);
    }
    var created := db.AddChat(imageId, now);
    r := Ok(created);
  }

  method HandleCreateMessage(db: Session, chatId: int, message: MessageCreate, me: int, now: Timestamp)
    returns (r: Result<Message>)
    modifies db
    ensures r == CreateMessage(old(db.Snapshot()), chatId, message, me, now).result
    ensures db.Snapshot() == CreateMessage(old(db.Snapshot()), chatId, message, me, now).store
  {
    var access := ChatAccess(db.Snapshot(), chatId, me);
    if access.Err? {
      return Err(access.status);
    }
    var m := db.AddMessage(message.content, now, me, chatId);
    r := Ok(m);
  }

  // ---- The websocket ----

  /** A received JSON object's `content` entry (None when the key is missing), and when it came. */
  datatype Incoming = Incoming(content: Option<string>, at: Timestamp)

  /** How the handler ends: refused before connecting (the socket closed with 1008, `raised` the
      status of the exception), by the client's disconnect, or by an exception nobody catches. */
  datatype SocketEnd = Refused(raised: int) | Disconnected | Crashed

  const PolicyViolation: int := 1008

  /** The content is truthy: present and not empty. */
  predicate Says(item: Incoming) {
    item.content.Some? && item.content.value != ""
  }

  /** The received objects that are stored and broadcast, in order. */
  function Spoken(inbox: seq<Incoming>): (r: seq<Incoming>)
    ensures forall k :: 0 <= k < |r| ==> Says(r[k])
    ensures forall x :: x in r <==> x in inbox && Says(x)
    ensures |r| <= |inbox|
  {
    if inbox == [] then []
    else
      var last := inbox[|inbox| - 1];
      Spoken(inbox[..|inbox| - 1]) + if Says(last) then [last] else []
  }

  function FrameOf(m: Message): Frame {
    Frame(m.id, m.content, m.sentAt, m.senderId, m.chatId)
  }

  /** One turn of the loop: a falsy content is skipped with no write and no send; a truthy one is
      stored as a message of the user in the chat, and its fields go to every listener. */
  function Receive(s: Store, chatId: int, me: int, item: Incoming, listeners: seq<Conn>): (r: (Store, seq<Event>))
    ensures !Says(item) ==> r == (s, [])
    ensures Says(item) ==>
      var m := Message(s.nextId, item.content.value, item.at, me, chatId);
      && r.0 == s.(messages := s.messages + [m], nextId := s.nextId + 1)
      && |r.1| == |listeners|
      && forall k :: 0 <= k < |listeners| ==>
           r.1[k] == Sent(listeners[k], Frame(m.id, m.content, m.sentAt, m.senderId, m.chatId))
  {
    if !Says(item) then (s, [])
    else
      var m := Message(s.nextId, item.content.value, item.at, me, chatId);
      (s.(messages := s.messages + [m], nextId := s.nextId + 1), Sends(listeners, FrameOf(m)))
  }

  /** The loop over everything received, in order. */
  function Conversation(s: Store, chatId: int, me: int, inbox: seq<Incoming>, listeners: seq<Conn>): (r: (Store, seq<Event>))
    ensures r.0 == s.(messages := r.0.messages, nextId := r.0.nextId)
    decreases |inbox|
  {
    if inbox == [] then (s, [])
    else
      var before := Conversation(s, chatId, me, inbox[..|inbox| - 1], listeners);
      var turn := Receive(before.0, chatId, me, inbox[|inbox| - 1], listeners);
      (turn.0, before.1 + turn.1)
  }

  /** The conversation one turn longer. */
  lemma ConversationTurn(s: Store, chatId: int, me: int, inbox: seq<Incoming>, i: int, listeners: seq<Conn>)
    requires 0 <= i < |inbox|
    ensures var before := Conversation(s, chatId, me, inbox[..i], listeners);
      var turn := Receive(before.0, chatId, me, inbox[i], listeners);
      Conversation(s, chatId, me, inbox[..i + 1], listeners) == (turn.0, before.1 + turn.1)
  {
    assert inbox[..i + 1][..i] == inbox[..i];
  }

  /** What a conversation stores: one message per truthy content, in order, each from the user in
      the chat with the next ids; nothing else in the database changes. */
  lemma {:induction false} ConversationStores(s: Store, chatId: int, me: int, inbox: seq<Incoming>, listeners: seq<Conn>)
    ensures var t := Conversation(s, chatId, me, inbox, listeners).0;
      var said := Spoken(inbox);
      && t == s.(messages := t.messages, nextId := s.nextId + |said|)
      && |t.messages| == |s.messages| + |said|
      && t.messages[..|s.messages|] == s.messages
      && forall k :: 0 <= k < |said| ==>
           t.messages[|s.messages| + k] == Message(s.nextId + k, said[k].content.value, said[k].at, me, chatId)
    decreases |inbox|
  {
    if inbox != [] {
      var front := inbox[..|inbox| - 1];
      var last := inbox[|inbox| - 1];
      ConversationStores(s, chatId, me, front, listeners);
      var before := Conversation(s, chatId, me, front, listeners).0;
      var said := Spoken(front);
      if Says(last) {
        var t := Conversation(s, chatId, me, inbox, listeners).0;
        assert t.messages == before.messages + [Message(before.nextId, last.content.value, last.at, me, chatId)];
        assert Spoken(inbox) == said + [last];
        assert t.messages[..|s.messages|] == before.messages[..|s.messages|];
      }
    }
  }

  /** What broadcasting the messages `ms` one after the other sends: for each message in turn, its
      fields to every listener. */
  function Deliveries(listeners: seq<Conn>, ms: seq<Message>): (r: seq<Event>)
    ensures |r| == |ms| * |listeners|
    decreases |ms|
  {
    if ms == [] then []
    else Deliveries(listeners, ms[..|ms| - 1]) + Sends(listeners, FrameOf(ms[|ms| - 1]))
  }

  /** The `k`-th block of `|listeners|` events carries the `k`-th message. */
  lemma {:induction false} DeliveriesBlock(listeners: seq<Conn>, ms: seq<Message>, k: int)
    requires 0 <= k < |ms|
    ensures (k + 1) * |listeners| <= |Deliveries(listeners, ms)|
    ensures Deliveries(listeners, ms)[k * |listeners| .. (k + 1) * |listeners|] == Sends(listeners, FrameOf(ms[k]))
    decreases |ms|
  {
    var front := ms[..|ms| - 1];
    var d := Deliveries(listeners, front);
    var all := d + Sends(listeners, FrameOf(ms[|ms| - 1]));
    assert Deliveries(listeners, ms) == all;
    assert (k + 1) * |listeners| == k * |listeners| + |listeners|;
    if k < |ms| - 1 {
      DeliveriesBlock(listeners, front, k);
      assert front[k] == ms[k];
      assert all[k * |listeners| .. (k + 1) * |listeners|] == d[k * |listeners| .. (k + 1) * |listeners|];
    } else {
      assert |d| == k * |listeners|;
      assert all[|d| .. |d| + |listeners|] == Sends(listeners, FrameOf(ms[|ms| - 1]));
    }
  }

  /** What a conversation sends: the broadcasts of the messages it stored, in the order stored. */
  lemma {:induction false} ConversationSends(s: Store, chatId: int, me: int, inbox: seq<Incoming>, listeners: seq<Conn>)
    ensures var t := Conversation(s, chatId, me, inbox, listeners);
      |s.messages| <= |t.0.messages| && t.1 == Deliveries(listeners, t.0.messages[|s.messages|..])
    decreases |inbox|
  {
    if inbox == [] {
      assert s.messages[|s.messages|..] == [];
    } else {
      var front := inbox[..|inbox| - 1];
      var last := inbox[|inbox| - 1];
      ConversationSends(s, chatId, me, front, listeners);
      var b := Conversation(s, chatId, me, front, listeners);
      if Says(last) {
        var m := Message(b.0.nextId, last.content.value, last.at, me, chatId);
        var xs := b.0.messages[|s.messages|..];
        assert Conversation(s, chatId, me, inbox, listeners).0.messages[|s.messages|..] == xs + [m];
        assert (xs + [m])[..|xs|] == xs;
      }
    }
  }

  /** The `k`-th truthy content received goes, as the `k`-th block of events, to every listener:
      the fields of the message stored for it. */
  lemma ConversationBroadcasts(s: Store, chatId: int, me: int, inbox: seq<Incoming>, listeners: seq<Conn>, k: int)
    requires 0 <= k < |Spoken(inbox)|
    ensures var events := Conversation(s, chatId, me, inbox, listeners).1;
      var item := Spoken(inbox)[k];
      && (k + 1) * |listeners| <= |events|
      && events[k * |listeners| .. (k + 1) * |listeners|] ==
           Sends(listeners, Frame(s.nextId + k, item.content.value, item.at, me, chatId))
  {
    ConversationStores(s, chatId, me, inbox, listeners);
    ConversationSends(s, chatId, me, inbox, listeners);
    var t := Conversation(s, chatId, me, inbox, listeners).0;
    var stored := t.messages[|s.messages|..];
    assert stored[k] == t.messages[|s.messages| + k];
    DeliveriesBlock(listeners, stored, k);
  }

  /** A conversation in an existing chat, by an existing user, keeps the keys and foreign keys. */
  lemma {:induction false} ConversationKeepsValid(s: Store, chatId: int, me: int, inbox: seq<Incoming>, listeners: seq<Conn>)
    requires Valid(s) && chatId in Column(s.chats, ChatId) && me in Column(s.users, UserId)
    ensures var t := Conversation(s, chatId, me, inbox, listeners).0;
      Valid(t) && t.chats == s.chats && t.users == s.users
    decreases |inbox|
  {
    if inbox != [] {
      var front := inbox[..|inbox| - 1];
      ConversationKeepsValid(s, chatId, me, front, listeners);
      var before := Conversation(s, chatId, me, front, listeners).0;
      var last := inbox[|inbox| - 1];
      if Says(last) {
        InsertMessageKeepsValid(before, Message(before.nextId, last.content.value, last.at, me, chatId));
      }
    }
  }

  /** The `while True` loop of the websocket handler, run until the client disconnects after the
      last object of `inbox`. Each truthy content is stored and broadcast; the registry stays put. */
  method Converse(db: Session, manager: ConnectionManager, chatId: int, me: int, inbox: seq<Incoming>)
    requires manager.Valid() && chatId in manager.connections
    modifies db, manager
    ensures manager.connections == old(manager.connections) && manager.Valid()
    ensures var talk := Conversation(old(db.Snapshot()), chatId, me, inbox, old(manager.connections)[chatId]);
      db.Snapshot() == talk.0 && manager.outbox == old(manager.outbox) + talk.1
  {
    var listeners := manager.connections[chatId];
    var i := 0;
    while i < |inbox|
      invariant 0 <= i <= |inbox|
      invariant manager.connections == old(manager.connections)
      invariant db.Snapshot() == Conversation(old(db.Snapshot()), chatId, me, inbox[..i], listeners).0
      invariant manager.outbox == old(manager.outbox) + Conversation(old(db.Snapshot()), chatId, me, inbox[..i], listeners).1
    {
      ConversationTurn(old(db.Snapshot()), chatId, me, inbox, i, listeners);
      var content := inbox[i].content;
      if content.Some? && content.value != "" {
        var m := Crud.CreateMessage(db, MessageCreate(content.value, chatId), me, inbox[i].at);
        manager.Broadcast(chatId, FrameOf(m));
      }
      i := i + 1;
    }
    assert inbox[..|inbox|] == inbox;
  }

  /** `chat_websocket` as its callers mean it, with `get_current_user_ws` already resolved to `me`.
      A missing chat or image, or a refusal by the gate, closes the socket before it is registered.
      Otherwise the socket joins the chat, each truthy content is stored through `create_message`
      and broadcast to the chat's connections (the new socket among them), and the client's
      disconnect takes the socket out again. */
  method ChatWebsocket(db: Session, manager: ConnectionManager, ws: Conn, chatId: int, me: int, inbox: seq<Incoming>)
    returns (end: SocketEnd)
    requires manager.Valid()
    modifies db, manager
    ensures manager.Valid()
    ensures end != Crashed
    ensures Find(old(db.chats), ChatId, chatId).None? ==> end == Refused(PolicyViolation)
    ensures end.Refused? ==>
      db.Snapshot() == old(db.Snapshot()) &&
      manager.connections == old(manager.connections) && manager.outbox == old(manager.outbox)
    ensures end == Disconnected <==> ChatAccess(old(db.Snapshot()), chatId, me).Ok?
    ensures var s0 := old(db.Snapshot()); var chat := Find(s0.chats, ChatId, chatId);
      chat.Some? && Find(s0.images, ImageId, chat.value.imageId).None? ==> end == Refused(PolicyViolation)
    ensures var s0 := old(db.Snapshot()); var chat := Find(s0.chats, ChatId, chatId);
      var image := if chat.Some? then Find(s0.images, ImageId, chat.value.imageId) else None;
      image.Some? && AlbumGate(s0, image.value.albumId, me).Err? ==>
        end == Refused(Code(AlbumGate(s0, image.value.albumId, me).status))
    ensures end == Disconnected ==>
      var talk := Conversation(old(db.Snapshot()), chatId, me, inbox, Listeners(old(manager.connections), chatId) + [ws]);
      db.Snapshot() == talk.0 && manager.outbox == old(manager.outbox) + [Accepted(ws)] + talk.1
    ensures end == Disconnected && ws !in Listeners(old(manager.connections), chatId) ==>
      manager.connections == old(manager.connections)
  {
    var chat := Find(db.chats, ChatId, chatId);
    if chat.None? {
      return Refused(PolicyViolation);
    }
    var image := Find(db.images, ImageId, chat.value.imageId);
    if image.None? {
      return Refused(PolicyViolation);
    }
    var gate := AlbumGate(db.Snapshot(), image.value.albumId, me);
    if gate.Err? {
      return Refused(Code(gate.status));
    }
    ghost var before := manager.connections;
    manager.Connect(chatId, ws);
    Converse(db, manager, chatId, me, inbox);
    var _ := manager.Disconnect(chatId, ws);
    if ws !in Listeners(before, chatId) {
      ConnectThenDisconnect(before, chatId, ws);
    }
    end := Disconnected;
  }

  /** `chat_websocket` as written. The first truthy content reaches
      `crud.create_message(..., sender_id=...)`, a keyword that helper does not accept: the TypeError
      escapes the `except WebSocketDisconnect`, so nothing is stored or broadcast, and the socket is
      never taken out of the registry. */
  method ChatWebsocketAsWritten(db: Session, manager: ConnectionManager, ws: Conn, chatId: int, me: int, inbox: seq<Incoming>)
    returns (end: SocketEnd)
    requires manager.Valid()
    modifies manager
    ensures manager.Valid()
    ensures Find(db.chats, ChatId, chatId).None? ==> end == Refused(PolicyViolation)
    ensures !end.Refused? <==> ChatAccess(db.Snapshot(), chatId, me).Ok?
    ensures var chat := Find(db.chats, ChatId, chatId);
      chat.Some? && Find(db.images, ImageId, chat.value.imageId).None? ==> end == Refused(PolicyViolation)
    ensures var chat := Find(db.chats, ChatId, chatId);
      var image := if chat.Some? then Find(db.images, ImageId, chat.value.imageId) else None;
      image.Some? && AlbumGate(db.Snapshot(), image.value.albumId, me).Err? ==>
        end == Refused(Code(AlbumGate(db.Snapshot(), image.value.albumId, me).status))
    ensures end.Refused? ==> manager.connections == old(manager.connections) && manager.outbox == old(manager.outbox)
    ensures !end.Refused? ==> manager.outbox == old(manager.outbox) + [Accepted(ws)]
    ensures !end.Refused? ==> (end == Crashed <==> Spoken(inbox) != [])
    ensures end == Crashed ==>
      manager.connections == old(manager.connections)[chatId := Listeners(old(manager.connections), chatId) + [ws]]
  {
    var chat := Find(db.chats, ChatId, chatId);
    if chat.None? {
      return Refused(PolicyViolation);
    }
    var image := Find(db.images, ImageId, chat.value.imageId);
    if image.None? {
      return Refused(PolicyViolation);
    }
    var gate := AlbumGate(db.Snapshot(), image.value.albumId, me);
    if gate.Err? {
      return Refused(Code(gate.status));
    }
    manager.Connect(chatId, ws);
    var crashed := ReceiveAsWritten(inbox);
    if crashed {
      return Crashed;
    }
    var _ := manager.Disconnect(chatId, ws);
    end := Disconnected;
  }

  /** The receive loop as written: it skips falsy contents and fails at the first truthy one,
      in the call that stores it, before anything is written or sent. */
  method ReceiveAsWritten(inbox: seq<Incoming>) returns (crashed: bool)
    ensures crashed <==> Spoken(inbox) != []
  {
    var i := 0;
    while i < |inbox|
      invariant 0 <= i <= |inbox|
      invariant Spoken(inbox[..i]) == []
    {
      assert inbox[..i + 1][..i] == inbox[..i];
      if Says(inbox[i]) {
        SpokenOfPrefix(inbox, i + 1);
        return true;
      }
      i := i + 1;
    }
    assert inbox[..|inbox|] == inbox;
    return false;
  }

  /** Once a prefix says something, the whole inbox does. */
  lemma {:induction false} SpokenOfPrefix(inbox: seq<Incoming>, n: int)
    requires 0 <= n <= |inbox| && Spoken(inbox[..n]) != []
    ensures Spoken(inbox) != []
    decreases |inbox| - n
  {
    if n < |inbox| {
      assert inbox[..n + 1][..n] == inbox[..n];
      SpokenOfPrefix(inbox, n + 1);
    } else {
      assert inbox[..n] == inbox;
    }
  }
}
