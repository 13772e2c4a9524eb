# couple-api: access-gated photo albums with chats, in Dafny

couple-api is a FastAPI service in which users own photo albums, share them through
participant rows, attach images to albums, open one chat per image and post messages in it,
over REST and over a websocket that broadcasts each new message to the chat's open connections.

This project models the part of the service whose behaviour can be stated:

- the database as a value (`Models.Store`): one sequence of rows per table in insertion order,
  the participant pairs as a set, and the id generator's next value; its keys and foreign keys
  (`Models.Valid`) and what `db.delete` does under the declared cascades;
- the session the handlers write through (`Db.Session`), a class with one field per table;
- every route handler of the core as a transition `Step(result, store)` that either raises one
  of 400/401/403/404/500 or returns a response and the new database; each writing REST handler
  (the get-or-create chat routes and `create_message` included) is also a `Handle*` method on the
  session, proved equal to its transition;
- the read-only helpers of `app/utils/concurrent.py` and the owner-or-participant gate;
- the live-chat `ConnectionManager` as a class over `map<int, seq<Conn>>` with a log of what was
  sent, and the websocket handler's loop as a method over the sequence of received objects.

The current user is a given user id (`me`), or the given row for `update_me`. `hash_password`
and `verify_password` are function parameters. Clock readings are `Timestamp` parameters. The
database hands out ids from one counter shared by all tables, and a new row gets its next value.

Where the code does something other than what its authors evidently meant, the model keeps a
member for the code as written and one for the intended code; the rest of the model uses the
intended one (see "## Findings"). Where the documented behaviour and the code disagree, the
model follows the code:

- `register` answers 400 for a taken email (the documented behaviour is a conflict error);
- `login` answers 404 for bad credentials (documented: 401);
- the REST `create_message` stores empty content (documented: invalid input);
- a participant may retitle an album (documented: only the owner), since app/routes/albums.py:88-91
  lets the owner or a participant through; `Albums.UpdateAlbum` follows that;
- a chat's connections are a list that may hold a socket twice, and `disconnect` of a socket
  that is not in the list raises ValueError (documented: a set);
- a failing `send_json` is not caught, so nothing is said about delivery failures.

`verify_album_access` is imported by app/routes/messages.py but defined nowhere in the
repository's source. The model takes it to be the gate of the image routes: 404 for a missing
album, 403 for a user who neither owns the album nor participates in it (`Concurrent.AlbumGate`).

Deletion follows the ORM's rules for the relationships of app/models.py. `Album.images` and
`Image.chat` cascade the delete. The other relationships declare no cascade, so the flush would
set the referring column to NULL. For `messages.chat_id`, `albums.owner_id` and `messages.sender_id`
the NOT NULL column refuses that; for `album_participants`, where the column is part of the
primary key, the ORM refuses it. In each case the commit fails with 500 and nothing changes.
With that reading every transition of the core keeps `Models.Valid`.

## Model

| member | source | states |
|---|---|---|
| Tables.Find | app/utils/concurrent.py:8 | `.first()` of a `WHERE column = value` query: a row holding the value, or None exactly when no row holds it |
| Tables.FindFirst | app/utils/concurrent.py:8 | the row `.first()` returns comes before every other row holding the value, in the table order the model keeps |
| Tables.Select | app/routes/images.py:41 | `.all()` of a `WHERE column IN values` query: exactly the rows whose column is in the set |
| Tables.Drop | app/routes/images.py:68-69 | a delete of the rows whose column is in a set: exactly the other rows remain |
| Tables.Replace | app/routes/images.py:83-87 | the commit of assignments to a row: every row holding its key is overwritten, the others stay where they were |
| Models.EmptyStoreValid | app/models.py:4-75 | `Models.Valid`, the conjunction of `Models.KeysValid` (unique primary keys below the id generator) and `Models.RefsValid` (every `foreign_key=` column resolves), holds of the empty database |
| Models.KeysIdentifyRows | app/models.py:8-58 | under `Models.KeysValid` a row of any table is determined by its id |
| Models.OwnershipChain | app/models.py:24-62 | under `Models.RefsValid` every message leads through its chat and the chat's image to an album and the album's owner |
| Models.DeleteImages | app/models.py:40-52 | deleting images also deletes the chats of those images and no other row; a failed commit is 500 |
| Models.DeleteImagesFails | app/models.py:40-62 | deleting images fails exactly when some message sits in a chat of one of them |
| Models.DeleteAlbumRows | app/models.py:27-28 | deleting an album deletes its images and their chats; participants of the album make it fail with 500; on success exactly the album with that id leaves the albums table |
| Models.MessagesInAlbumOnItsImages | app/models.py:27-52 | a message in a chat of an image of the album is exactly a message on the album's images |
| Models.DeleteAlbumRowsFails | app/models.py:27-28 | deleting an album fails exactly when someone participates in it or a message sits in a chat of one of its images |
| Models.DeleteAlbumRowsDropsItsImages | app/models.py:27 | after an album's delete no image of that album remains, and with unique image ids every other image does |
| Models.DeleteUserRow | app/models.py:13-15 | deleting a user removes exactly the rows with that id from the users table and changes no other table, or fails with 500 |
| Models.DeleteUserRowFails | app/models.py:13-15 | deleting a user fails exactly when they own an album, have sent a message or participate in an album |
| Models.InsertUserKeepsValid | app/models.py:8 | a new user drawn with the next id keeps every key unique and every foreign key resolved |
| Models.InsertAlbumKeepsValid | app/models.py:24 | a new album whose owner exists keeps the database consistent |
| Models.InsertImageKeepsValid | app/models.py:38 | a new image whose album exists keeps the database consistent |
| Models.InsertChatKeepsValid | app/models.py:48 | a new chat whose image exists keeps the database consistent |
| Models.InsertMessageKeepsValid | app/models.py:61-62 | a new message whose sender and chat exist keeps the database consistent |
| Models.ReplaceImageKeepsValid | app/models.py:34-38 | overwriting an image that keeps its id and an existing album keeps the database consistent |
| Models.ReplaceAlbumKeepsValid | app/models.py:21-24 | overwriting an album that keeps its id and an existing owner keeps the database consistent |
| Models.ReplaceUserKeepsValid | app/models.py:8-11 | overwriting a user that keeps its id keeps the database consistent |
| Models.RemoveParticipantKeepsValid | app/models.py:71-72 | deleting a participant pair keeps the database consistent |
| Models.DeleteImagesKeepsValid | app/models.py:40-52 | a successful image delete with its cascade leaves no chat without its image and no message without its chat |
| Models.DeleteAlbumRowsKeepsValid | app/models.py:27-28 | a successful album delete leaves no image, chat or participant pointing at a missing row |
| Models.DeleteUserRowKeepsValid | app/models.py:13-15 | a successful user delete leaves no album, message or participant pointing at a missing user |
| Db.Session.AddUser | app/routes/users.py:24-27 | `add`, `commit`, `refresh` of a user: the row gets the next id and is appended; nothing else changes |
| Db.Session.AddAlbum | app/routes/albums.py:29-32 | the album gets the next id and is appended; nothing else changes |
| Db.Session.AddImage | app/routes/images.py:27-30 | the image gets the next id and is appended; nothing else changes |
| Db.Session.AddChat | app/routes/messages.py:52-55 | the chat gets the next id and is appended; nothing else changes |
| Db.Session.AddMessage | app/routes/messages.py:99-102 | the message gets the next id and is appended; nothing else changes |
| Db.Session.SaveImage | app/routes/images.py:83-88 | committing an assigned image overwrites the rows with its id and nothing else |
| Db.Session.SaveAlbum | app/routes/albums.py:93-95 | committing an assigned album overwrites the rows with its id and nothing else |
| Db.Session.SaveUser | app/routes/users.py:68-71 | committing the assigned current user overwrites the rows with its id and nothing else |
| Db.Session.DeleteImage | app/routes/images.py:68-69 | the session's image delete raises 500 and changes nothing, or leaves exactly the database `Models.DeleteImages` describes |
| Db.Session.DeleteAlbum | app/routes/albums.py:71-72 | the session's album delete agrees with `Models.DeleteAlbumRows` on failure and on the new tables |
| Db.Session.DeleteUser | app/routes/users.py:62-63 | the session's user delete agrees with `Models.DeleteUserRow` on failure and on the new tables |
| Db.Session.DeleteParticipant | app/routes/albums.py:66-67 | deleting a participant row removes that pair and changes nothing else |
| Concurrent.ParticipationController | app/utils/concurrent.py:7-18 | 404 exactly when no album has the id; otherwise that album and the current user's participant row for it, present exactly when the pair is stored |
| Concurrent.GetImage | app/utils/concurrent.py:20-28 | an image is returned only when both its id and its album match; None exactly when no image matches both |
| Concurrent.GetImageOtherAlbum | app/utils/concurrent.py:20-28 | with unique image ids, an image's id asked for under another album finds nothing |
| Concurrent.NotFoundException | app/utils/concurrent.py:30-32 | raises 404 exactly when the element is absent |
| Concurrent.ExistingElementException | app/utils/concurrent.py:34-36 | raises 400 exactly when the element is present |
| Concurrent.AlbumGate | app/routes/images.py:18-21 | 404 exactly when the album is missing; passing implies the user owns the album or holds a participant row; any refusal is 404 or 403 |
| Concurrent.AlbumGateDecides | app/routes/images.py:18-21 | with unique album ids the gate passes exactly for the owner and the participants, and answers 403 exactly to everyone else once the album exists |
| Images.CreateImageAsWritten | app/routes/images.py:17-25 | `create_image` as written never stores anything: past the gate it fails with 500 |
| Images.CreateImageAsWrittenFailsForOwner | app/routes/images.py:23 | even the album's owner gets 500 from `create_image` as written |
| Images.CreateImage | app/routes/images.py:17-31 | errors change nothing; 400 exactly when the gate passes and the requested image exists in the album; success appends one image with the next id, the request's title, description and path and the album from the URL |
| Images.CreateImageKeepsValid | app/routes/images.py:27-31 | creating an image keeps the database consistent |
| Images.ReadImages | app/routes/images.py:35-42 | fails exactly when the gate fails, with its status; otherwise exactly the images of that album |
| Images.ReadImagesId | app/routes/images.py:45-55 | a missing image is 404 before the gate is consulted; a found image is returned exactly when the gate passes |
| Images.DeleteImage | app/routes/images.py:58-70 | errors change nothing; a missing image is 404 before the gate; for a found image a refusing gate answers its own status, and past the gate the delete succeeds exactly when `Models.DeleteImages` does and otherwise is 500; success removes exactly the images with that id and their chats, and no other table changes |
| Images.DeleteImageKeepsValid | app/routes/images.py:68-69 | deleting an image keeps the database consistent |
| Images.UpdateImage | app/routes/images.py:73-89 | errors change nothing; a missing image is 404 before the gate; for a found image a refusing gate answers its own status; the update succeeds exactly when the image is found and the gate passes, and overwrites title, description and path of the found image, keeping its id and album |
| Images.UpdateImageTouchesOneRow | app/routes/images.py:83-89 | with unique image ids the update changes only the row of that image, rewriting its three fields |
| Images.UpdateImageKeepsValid | app/routes/images.py:83-89 | updating an image keeps the database consistent |
| Images.HandleCreateImage | app/routes/images.py:17-31 | the session method answers and writes exactly as `Images.CreateImage` |
| Images.HandleDeleteImage | app/routes/images.py:58-70 | the session method answers and writes exactly as `Images.DeleteImage` |
| Images.HandleUpdateImage | app/routes/images.py:73-89 | the session method answers and writes exactly as `Images.UpdateImage` |
| Albums.ReadUserAlbums | app/routes/albums.py:19-26 | exactly the albums the user owns or holds a participant row for |
| Albums.ReadUserAlbumsAgreesWithGate | app/routes/albums.py:20-25 | with unique album ids an album is listed for a user exactly when the gate lets that user into it |
| Albums.CreateAlbum | app/routes/albums.py:28-33 | one new album with the next id, the given title and the current user as owner; nothing else changes |
| Albums.CreateAlbumIsListed | app/routes/albums.py:28-33 | the new album appears in its owner's album list |
| Albums.CreateAlbumKeepsValid | app/routes/albums.py:28-33 | creating an album as an existing user keeps the database consistent |
| Albums.ReadAlbumAsWritten | app/routes/albums.py:36-51 | `read_album` as written: 404 exactly when the album is missing, and any user gets any existing album |
| Albums.ReadAlbumAsWrittenLeaks | app/routes/albums.py:42-48 | a user who neither owns nor participates gets the album as written, and 403 as intended |
| Albums.ReadAlbum | app/routes/albums.py:36-51 | 404 exactly when the album is missing; the album is returned only to its owner or a participant; other refusals are 403 |
| Albums.ReadAlbumOwner | app/routes/albums.py:36-51 | the owner reads the album unchanged, as written and as intended |
| Albums.ReadAlbumIsGate | app/routes/albums.py:36-51 | the intended `read_album` is the owner-or-participant gate of the image routes |
| Albums.DeleteAlbumAsWritten | app/routes/albums.py:54-73 | `delete_album` as written: never "deleted for you"; a missing album is 500; success is the owner's cascade delete; errors change nothing |
| Albums.UpdateAlbumAsWritten | app/routes/albums.py:76-96 | `update_album` as written: a missing album is 500; only the owner renames; errors change nothing |
| Albums.ParticipantDeniedAsWritten | app/routes/albums.py:56-64 | a participant who does not own the album gets 401 from both handlers as written, and leaves or renames the album through the intended ones |
| Albums.MissingAlbumAsWritten | app/routes/albums.py:55-56 | a missing album crashes both handlers as written with 500, and the intended ones answer 404 |
| Albums.DeleteAlbum | app/routes/albums.py:54-73 | errors change nothing; 404 exactly for a missing album; "deleted for you" removes only the user's participant pair; "album deleted" is the owner's cascade delete, which the owner gets exactly when `Models.DeleteAlbumRows` succeeds, and 500 otherwise; a non-owner leaves exactly when a participant row exists and gets 401 otherwise |
| Albums.DeleteAlbumByRole | app/routes/albums.py:56-73 | the owner's delete succeeds exactly when nobody participates in the album and no message sits in a chat of its images, removing the album and all its images, and otherwise fails with 500; a non-owner never removes the album, leaves exactly when a participant row exists, and gets 401 exactly otherwise |
| Albums.DeleteAlbumKeepsValid | app/routes/albums.py:54-73 | both branches of the delete keep the database consistent |
| Albums.UpdateAlbum | app/routes/albums.py:76-96 | errors change nothing; 404 exactly for a missing album; for an existing album the update succeeds exactly for the owner and the participants, setting only the title; everyone else gets 401 |
| Albums.UpdateAlbumRenamesOne | app/routes/albums.py:88-95 | with unique album ids the update renames exactly that album's row and changes no other row |
| Albums.UpdateAlbumKeepsValid | app/routes/albums.py:76-96 | renaming an album keeps the database consistent |
| Albums.HandleCreateAlbum | app/routes/albums.py:28-33 | the session method answers and writes exactly as `Albums.CreateAlbum` |
| Albums.HandleDeleteAlbum | app/routes/albums.py:54-73 | the session method answers and writes exactly as `Albums.DeleteAlbum` |
| Albums.HandleUpdateAlbum | app/routes/albums.py:76-96 | the session method answers and writes exactly as `Albums.UpdateAlbum` |
| Crud.CreateUser | app/crud.py:7-12 | the new user stores the password exactly as given, under the next id |
| Crud.GetUser | app/crud.py:14-15 | a user with that id, or None exactly when there is none |
| Crud.GetUserAfterCreate | app/crud.py:7-15 | a user just created is found by its id |
| Crud.CreateMessage | app/crud.py:17-22 | one new message with the given chat, sender and content under the next id; nothing else changes |
| Crud.GetMessages | app/crud.py:24-26 | exactly the messages of the chat |
| Crud.GetMessagesAfterAdd | app/crud.py:17-26 | a new message is listed last for its own chat, and every other chat's list is unchanged |
| Crud.CreateChat | app/crud.py:28-33 | the new chat's image id is the request's album id |
| Crud.CreateChatDangles | app/crud.py:29 | when that album id is no image id, the new chat refers to no image |
| Crud.GetChat | app/crud.py:35-37 | a chat is returned only when both its id and its image match; None exactly when none does |
| Crud.GetChatOwnImage | app/crud.py:35-37 | with unique chat ids a stored chat is found under its own image and under no other |
| Crud.CreateAlbum | app/crud.py:39-44 | the new album has the given title and owner under the next id |
| Crud.GetAlbum | app/crud.py:46-47 | an album with that id, or None exactly when there is none |
| Crud.GetAlbumFindsStored | app/crud.py:46-47 | with unique album ids every stored album is found by its id |
| Users.Register | app/routes/users.py:18-28 | 400 with no change exactly when some user has the email; otherwise one new user holding `hash(password)` |
| Users.RegisterKeepsEmailsUnique | app/routes/users.py:20-21 | registration never makes two users share an email |
| Users.RegisterKeepsValid | app/routes/users.py:18-28 | registering keeps the database consistent |
| Users.Login | app/routes/users.py:31-35 | 404 for an unknown email or a refused password; success is a user with that email whose stored hash verifies; when the email is found, the found user is returned exactly when the password verifies |
| Users.LoginAfterRegister | app/routes/users.py:17-35 | logging in with the credentials just registered finds the new user, when verify accepts a password against its own hash |
| Users.DeleteMe | app/routes/users.py:61-64 | fails, with 500 and no change, exactly when the user owns an album, has sent a message or participates; success removes exactly that user |
| Users.DeleteMeKeepsValid | app/routes/users.py:61-64 | deleting the current user keeps the database consistent |
| Users.UpdateMe | app/routes/users.py:67-72 | overwrites email, username and password hash of the current user's row, with no email check |
| Users.UpdateMeCanDuplicateEmail | app/routes/users.py:68-71 | taking another user's email leaves two users with that email |
| Users.UpdateMeKeepsValid | app/routes/users.py:67-72 | the update keeps keys and foreign keys consistent |
| Users.HandleRegister | app/routes/users.py:18-28 | the session method answers and writes exactly as `Users.Register` |
| Users.HandleDeleteMe | app/routes/users.py:61-64 | the session method answers and writes exactly as `Users.DeleteMe` |
| Users.HandleUpdateMe | app/routes/users.py:67-72 | the session method answers and writes exactly as `Users.UpdateMe` |
| Messages.RemoveFirst | app/routes/messages.py:25 | `list.remove` takes out one occurrence: one element fewer, the same multiset less that connection |
| Messages.RemoveFirstAt | app/routes/messages.py:25 | the occurrence removed is the first one |
| Messages.IndexOf | app/routes/messages.py:25 | the scan `list.remove` makes: a position holding the socket with none before it, or the list's length when no position holds it |
| Messages.RemoveFirstLast | app/routes/messages.py:19-27 | removing a socket just appended to a list that did not hold it gives the list back |
| Messages.ConnectionManager.constructor | app/routes/messages.py:16-17 | the registry starts empty, with nothing sent |
| Messages.ConnectionManager.Connect | app/routes/messages.py:19-21 | the socket is accepted and appended to its chat's list (a new list when the chat had none); every other chat is unchanged; no chat maps to an empty list |
| Messages.ConnectionManager.Disconnect | app/routes/messages.py:23-27 | an unknown chat changes nothing; otherwise the first occurrence of the socket is removed and an emptied chat is deleted; a socket not in the list raises and changes nothing; no chat maps to an empty list |
| Messages.ConnectionManager.Broadcast | app/routes/messages.py:29-31 | one send of the frame to each connection of the chat, in list order, none for an unknown chat; the registry is unchanged |
| Messages.ConnectThenDisconnect | app/routes/messages.py:19-27 | connecting a socket not yet registered and disconnecting it restores the registry |
| Messages.CreateChat | app/routes/messages.py:37-56 | errors change nothing; a missing image is 404; a found image's refusing gate answers its own status; success happens exactly when the image is found and the gate passes; an existing chat of the image is returned with no write; otherwise exactly one chat for the image is added |
| Messages.CreateChatIdempotent | app/routes/messages.py:48-56 | a second get-or-create returns the same chat and adds nothing |
| Messages.CreateChatKeepsOneChatPerImage | app/routes/messages.py:48-56 | get-or-create never gives an image a second chat |
| Messages.CreateChatKeepsValid | app/routes/messages.py:52-55 | get-or-create keeps the database consistent |
| Messages.GetChat | app/routes/messages.py:59-79 | the GET route, which reads the chat before the image, is the same get-or-create as the POST route |
| Messages.HandleCreateChat | app/routes/messages.py:37-56 | the session method answers and writes exactly as `Messages.CreateChat` |
| Messages.ChatAccess | app/routes/messages.py:89-97 | 404 for a missing chat, 404 for a found chat whose image is missing; for a found image the chain passes exactly when the gate on the image's album passes, and a refusal carries the gate's status; passing implies the chat and its image exist |
| Messages.CreateMessage | app/routes/messages.py:83-104 | errors change nothing and are exactly the chain's; success adds exactly one message with the body's content, the URL's chat and the current user as sender |
| Messages.HandleCreateMessage | app/routes/messages.py:83-104 | the session method answers and writes exactly as `Messages.CreateMessage` |
| Messages.CreateMessageKeepsValid | app/routes/messages.py:99-102 | posting as an existing user keeps the database consistent |
| Messages.ReadMessages | app/routes/messages.py:108-124 | the same 404/404/gate chain, then exactly the messages of the chat |
| Messages.CreateMessageThenRead | app/routes/messages.py:83-124 | a message just posted is read back last among the chat's messages |
| Messages.Spoken | app/routes/messages.py:154-156 | the received objects the loop does not skip: an object is among them exactly when it was received with truthy content |
| Messages.Receive | app/routes/messages.py:153-171 | a falsy content is skipped with no write and no send; a truthy one stores one message of the user in the chat and sends its id, content, time, sender and chat to every listener in order |
| Messages.Conversation | app/routes/messages.py:151-171 | the loop over everything received changes no table but the messages, and the id generator |
| Messages.Deliveries | app/routes/messages.py:29-31 | broadcasting messages one after the other sends one event per message and listener |
| Messages.DeliveriesBlock | app/routes/messages.py:29-31 | the k-th block of events carries the k-th message's fields to every listener, in list order |
| Messages.ConversationSends | app/routes/messages.py:162-167 | what the loop sends is exactly the broadcasts of the messages it stored, in the order stored |
| Messages.ConversationBroadcasts | app/routes/messages.py:153-167 | the k-th truthy content received goes, as the k-th block of events, to every listener, carrying the id, content, time, sender and chat of the message stored for it |
| Messages.ConversationStores | app/routes/messages.py:152-171 | the loop stores one message per truthy content, in order, from the user in the chat with consecutive ids, and changes no other table |
| Messages.ConversationKeepsValid | app/routes/messages.py:157-161 | the loop keeps the database consistent in an existing chat for an existing user |
| Messages.Converse | app/routes/messages.py:151-171 | the session and registry methods of the loop write and send exactly what `Messages.Conversation` describes, and leave the registry as they found it |
| Messages.ChatWebsocket | app/routes/messages.py:127-173 | every refusal closes the socket with 1008 before registering, with nothing written or sent: a missing chat or image raises 1008, and a refusing gate re-raises its own 404/403; the socket gets through exactly when the REST chain (`Messages.ChatAccess`) would pass; then it is accepted, the conversation is stored and broadcast to the chat's listeners and the socket, and disconnecting restores the registry when the socket was not already registered for the chat |
| Messages.ChatWebsocketAsWritten | app/routes/messages.py:150-173 | as written, the socket gets through exactly when the REST chain would pass, and is otherwise refused, the socket closed with 1008 and the raised status 1008 or the gate's own; past it, the handler crashes exactly when some received content is truthy, with nothing stored or broadcast and the socket left registered |
| Messages.ReceiveAsWritten | app/routes/messages.py:151-161 | the receive loop as written fails exactly when some received object has a truthy content |
| Scenarios.AlbumImageChatFlow | tests/test_endpoints.py:35-62 | for any consistent database and registered user, creating an album, an image, the image's chat and a message all succeed and the message is read back; `create_image` as written fails at the second step |

## Left out

- app/database.py, app/main.py: engine, session set-up and router wiring.
- app/utils/security.py: cookie and token decoding; the current user is a given id, and the 401 for a missing or bad token is not modelled.
- `create_access_token`, the cookie set by `login` and deleted by `logout`, and `read_users_me`, which returns the current user: transport only.
- app/routes/messages.py is not included by app/main.py, and its import of `verify_album_access` would fail; the model treats its routes as if they were mounted.
- Response shaping by `response_model` (for instance the `album_id` and `messages` fields `ChatResponse` declares): not modelled.
- async/await and concurrent handlers: the registry and the websocket loop are sequential, and no other handler runs during a conversation.
- `websocket.accept` is logged; `websocket.close` is not, and is implied by a `Refused` end. What the framework does with an exception that escapes the handler is not modelled.
- `data.get("content")` may hold any JSON value; the model takes a string or nothing, and treats only the empty string as falsy.
- Database-generated ids: one counter shared by all tables stands for "some fresh id".
- `datetime.now`: a given `Timestamp`, with no clock arithmetic.
- A failed commit leaves the database as it was; the rollback's own mechanics are not modelled.
- The database checks no foreign key on insert. That is SQLite's default, the engine app/database.py:13-27 selects when no `user` is configured; with PostgreSQL the insert `Crud.CreateChatDangles` describes would fail instead. The handlers' own checks keep the foreign keys resolved.
- Albums.ReadUserAlbums: lists each qualifying album once; the outer join may repeat an album once per participant row, and that multiplicity is not modelled.
- Models.DeleteImages: removes every chat of a deleted image; with `Image.chat` declared as a single object the ORM would cascade to one chat, which is the same under get-or-create, since it never gives an image a second chat.
- Crud.CreateMessage: takes the sender as a parameter, as its callers mean; as written it reads `message.sender_id`, which `MessageCreate` does not declare.
- Messages.ChatWebsocket: states that the registry is restored after the disconnect only when the socket was not already registered for that chat.
- Messages.ChatWebsocketAsWritten: does not state the registry after a disconnect with no truthy content.

## Findings

| source | as written | input that shows it | evidently intended | confidence | as-written member | corrected member |
|---|---|---|---|---|---|---|
| app/routes/albums.py:42-48 | the participant query is kept without `.first()`; the result object is always truthy, so `not participant` never holds | album A exists; user U neither owns A nor has a participant row for A; U reads A and gets it (`Albums.ReadAlbumAsWrittenLeaks`) | 403 for U, as in the image routes | high; not executed | Albums.ReadAlbumAsWritten | Albums.ReadAlbum |
| app/routes/albums.py:60 | the filter compares the class `models.Album` with an int, which Python evaluates to False, so no participant row is ever found | U participates in A but does not own it; `delete_album(A)` answers 401 (`Albums.ParticipantDeniedAsWritten`) | U's participant row for A is deleted ("deleted for you") | medium (a reading that ignores the comparison would look up by user only); not executed | Albums.DeleteAlbumAsWritten | Albums.DeleteAlbum |
| app/routes/albums.py:82 | the same filter in `update_album` | U participates in A but does not own it; `update_album(A)` answers 401 (`Albums.ParticipantDeniedAsWritten`) | U renames A | medium; not executed | Albums.UpdateAlbumAsWritten | Albums.UpdateAlbum |
| app/routes/albums.py:55-56 | no check for a missing album before `album.owner_id` | an album id that no album has: AttributeError, 500 (`Albums.MissingAlbumAsWritten`) | 404, as in `read_album` | high; not executed | Albums.DeleteAlbumAsWritten | Albums.DeleteAlbum |
| app/routes/albums.py:77-78 | no check for a missing album before `db_album.owner_id` | an album id that no album has: 500 (`Albums.MissingAlbumAsWritten`) | 404 | high; not executed | Albums.UpdateAlbumAsWritten | Albums.UpdateAlbum |
| app/routes/images.py:23 | reads `image.id`, which `ImageCreate` does not declare | the album's owner posts any image: 500 and nothing stored (`Images.CreateImageAsWrittenFailsForOwner`) | look up the requested image id in the album, answer 400 if it is there, else store the image | high; not executed | Images.CreateImageAsWritten | Images.CreateImage |
| app/routes/messages.py:157-161 | `crud.create_message` is called with a `sender_id` keyword it does not accept; the TypeError escapes `except WebSocketDisconnect` | a connected client sends `{"content": "hi"}`: nothing stored, nothing broadcast, socket left registered | store the message from the user, broadcast it, and deregister the socket on disconnect | high; not executed | Messages.ChatWebsocketAsWritten | Messages.ChatWebsocket |
