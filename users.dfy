/** The account routes of app/routes/users.py. `hash_password` and `verify_password` come from a
    module that is not part of this model; they are parameters here. */
module Users {
  import opened Wrappers
  import opened Http
  import opened Tables
  import opened Models
  import opened Schemas
  import opened Db

  /** `register`: 400 when some user already has the email; otherwise one new user holding the hash
      of the password. */
  function Register(s: Store, user: UserCreate, hash: string -> string): (r: Step<User>)
    ensures r.result.Err? ==> r.store == s && r.result.status == BadRequest
    ensures r.result.Err? <==> exists u :: u in s.users && u.email == user.email
    ensures r.result.Ok? ==> r.result.value == User(s.nextId, user.email, user.username, hash(user.password))
    ensures r.result.Ok? ==> r.store == s.(users := s.users + [r.result.value], nextId := s.nextId + 1)
  {
    if Find(s.users, UserEmail, user.email).Some? then Step(Err(BadRequest), s)
    else
      var row := User(s.nextId, user.email, user.username, hash(user.password));
      Step(Ok(row), s.(users := s.users + [row], nextId := s.nextId + 1))
  }

  /** Registration alone never lets two users share an email. */
  lemma RegisterKeepsEmailsUnique(s: Store, user: UserCreate, hash: string -> string)
    requires UniqueKeys(s.users, UserEmail)
    ensures UniqueKeys(Register(s, user, hash).store.users, UserEmail)
  {
    var r := Register(s, user, hash);
    if r.result.Ok? {
      UniqueKeysAppend(s.users, r.result.value, UserEmail);
    }
  }

  lemma RegisterKeepsValid(s: Store, user: UserCreate, hash: string -> string)
    requires Valid(s)
    ensures Valid(Register(s, user, hash).store)
  {
    var r := Register(s, user, hash);
    if r.result.Ok? {
      InsertUserKeepsValid(s, r.result.value);
    }
  }

  /** `login`'s decision: the first user with the email, if `verify_password` accepts the password
      against the stored hash; 404 otherwise. The token and the cookie are not modelled. */
  function Login(s: Store, login: UserLogin, verify: (string, string) -> bool): (r: Result<User>)
    ensures r.Err? ==> r.status == NotFound
    ensures r.Ok? ==> r.value in s.users && r.value.email == login.email && verify(login.password, r.value.password)
    ensures (forall u :: u in s.users ==> u.email != login.email) ==> r.Err?
    ensures Find(s.users, UserEmail, login.email).Some? ==>
      (r == Ok(Find(s.users, UserEmail, login.email).value) <==>
         verify(login.password, Find(s.users, UserEmail, login.email).value.password))
  {
    match Find(s.users, UserEmail, login.email)
    case None => Err(NotFound)
    case Some(u) => if !verify(login.password, u.password) then Err(NotFound) else Ok(u)
  }

  /** Logging in right after registering, with the same email and password, finds the new user,
      provided `verify_password` accepts a password against its own hash. */
  lemma LoginAfterRegister(s: Store, user: UserCreate, hash: string -> string, verify: (string, string) -> bool)
    requires Register(s, user, hash).result.Ok?
    requires verify(user.password, hash(user.password))
    ensures Login(Register(s, user, hash).store, UserLogin(user.email, user.password), verify) ==
      Ok(Register(s, user, hash).result.value)
  {
    var row := Register(s, user, hash).result.value;
    FindAppend(s.users, row, UserEmail, user.email);
  }

  /** `delete_me`: `db.delete` of the current user. The commit fails with 500 and changes nothing
      while the user owns an album, has sent a message or participates in an album. */
  function DeleteMe(s: Store, me: int): (r: Step<()>)
    ensures r.result.Err? ==> r.store == s && r.result.status == InternalError
    ensures r.result.Err? <==>
      || (exists a :: a in s.albums && a.ownerId == me)
      || (exists m :: m in s.messages && m.senderId == me)
      || (exists p :: p in s.participants && p.userId == me)
    ensures r.result.Ok? ==> forall u :: u in r.store.users <==> u in s.users && u.id != me
    ensures r.result.Ok? ==> r.store == s.(users := r.store.users)
  {
    match DeleteUserRow(s, me)
    case Err(e) => Step(Err(e), s)
    case Ok(t) => Step(Ok(()), t)
  }

  lemma DeleteMeKeepsValid(s: Store, me: int)
    requires Valid(s)
    ensures Valid(DeleteMe(s, me).store)
  {
    if DeleteMe(s, me).result.Ok? {
      DeleteUserRowKeepsValid(s, me);
    }
  }

  /** `update_me`: the current user's email, username and password hash are overwritten, with no
      check on the email. */
  function UpdateMe(s: Store, current: User, user: UserCreate, hash: string -> string): (r: Step<User>)
    ensures r.result.Ok?
    ensures r.result.value == current.(email := user.email, username := user.username, password := hash(user.password))
    ensures r.store == s.(users := Replace(s.users, UserId, current.id, r.result.value))
  {
    var row := current.(email := user.email, username := user.username, password := hash(user.password));
    Step(Ok(row), s.(users := Replace(s.users, UserId, current.id, row)))
  }

  /** Taking another user's email through `update_me` leaves two users with that email. */
  lemma UpdateMeCanDuplicateEmail(s: Store, current: User, other: User, user: UserCreate, hash: string -> string)
    requires UniqueKeys(s.users, UserId) && current in s.users && other in s.users && other.id != current.id
    requires user.email == other.email
    ensures !UniqueKeys(UpdateMe(s, current, user, hash).store.users, UserEmail)
  {
    var t := UpdateMe(s, current, user, hash).store.users;
    var i :| 0 <= i < |s.users| && s.users[i] == current;
    var j :| 0 <= j < |s.users| && s.users[j] == other;
    assert t[i].email == user.email && t[j] == other;
    if i < j {
      assert UserEmail(t[i]) == UserEmail(t[j]);
    } else {
      assert UserEmail(t[j]) == UserEmail(t[i]);
    }
  }

  lemma UpdateMeKeepsValid(s: Store, current: User, user: UserCreate, hash: string -> string)
    requires Valid(s) && current in s.users
    ensures Valid(UpdateMe(s, current, user, hash).store)
  {
    assert UserId(current) in Column(s.users, UserId);
    ReplaceUserKeepsValid(s, current.id, UpdateMe(s, current, user, hash).result.value);
  }

  // ---- The writing handlers, performed on the session ----

  method HandleRegister(db: Session, user: UserCreate, hash: string -> string) returns (r: Result<User>)
    modifies db
    ensures r == Register(old(db.Snapshot()), user, hash).result
    ensures db.Snapshot() == Register(old(db.Snapshot()), user, hash).store
  {
    if Find(db.users, UserEmail, user.email).Some? {
      return Err(BadRequest);
    }
    var u := db.AddUser(user.email, user.username, hash(user.password));
    r := Ok(u);
  }

  method HandleDeleteMe(db: Session, me: int) returns (r: Result<()>)
    modifies db
    ensures r == DeleteMe(old(db.Snapshot()), me).result
    ensures db.Snapshot() == DeleteMe(old(db.Snapshot()), me).store
  {
    var flushed := db.DeleteUser(me);
    r := if flushed.Raise? then Err(flushed.status) else Ok(());
  }

  /** The current user's attributes are assigned in place, then committed. */
  method HandleUpdateMe(db: Session, current: User, user: UserCreate, hash: string -> string) returns (r: Result<User>)
    modifies db
    ensures r == UpdateMe(old(db.Snapshot()), current, user, hash).result
    ensures db.Snapshot() == UpdateMe(old(db.Snapshot()), current, user, hash).store
  {
    var row := current.(email := user.email);
    row := row.(username := user.username);
    row := row.(password := hash(user.password));
    db.SaveUser(row);
    r := Ok(row);
  }
}
