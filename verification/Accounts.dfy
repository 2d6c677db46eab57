/** Users: the tables, the use cases over them, and why a cache that forgets the password hash
    cannot change a password. */
module Accounts {
  import opened Wrappers
  import opened Domain
  import opened CacheKeys
  import Validation

  datatype User = User(id: Id, username: string, email: string, passwordHash: string, avatarUrl: string,
                       bio: string, status: string, lastSeen: int, createdAt: int, updatedAt: int)

  datatype Db = Db(users: map<Id, User>, deleted: set<Id>)

  predicate Live(d: Db, id: Id) { id in d.users && id !in d.deleted }

  /** What JSON keeps of a user, and what is read back: the hash is left out. */
  function ToJson(u: User): PublicUser
  {
    PublicUser(u.id, u.username, u.email, u.avatarUrl, u.bio, u.status, u.lastSeen, u.createdAt, u.updatedAt)
  }

  function FromJson(p: PublicUser): User
  {
    User(p.id, p.username, p.email, "", p.avatarUrl, p.bio, p.status, p.lastSeen, p.createdAt, p.updatedAt)
  }

  // ---- Statements ----

  function GetByID(d: Db, id: Id): Result<User>
  {
    if Live(d, id) then Ok(d.users[id]) else Err(ErrUserNotFound)
  }

  ghost predicate EmailsUnique(d: Db)
  {
    forall a, b :: Live(d, a) && Live(d, b) && d.users[a].email == d.users[b].email ==> a == b
  }

  ghost predicate NamesUnique(d: Db)
  {
    forall a, b :: Live(d, a) && Live(d, b) && d.users[a].username == d.users[b].username ==> a == b
  }

  /** What the two partial unique indexes and the primary key enforce. */
  ghost predicate Sound(d: Db)
  {
    && EmailsUnique(d) && NamesUnique(d)
    && d.deleted <= d.users.Keys
    && forall id :: id in d.users ==> d.users[id].id == id
  }

  predicate EmailTaken(d: Db, email: string, except: Option<Id>)
  {
    exists id :: id in d.users && Live(d, id) && d.users[id].email == email && Some(id) != except
  }

  predicate NameTaken(d: Db, username: string, except: Option<Id>)
  {
    exists id :: id in d.users && Live(d, id) && d.users[id].username == username && Some(id) != except
  }

  function GetByEmail(d: Db, email: string): (r: Result<User>)
    requires Sound(d)
    ensures r.Ok? ==> Live(d, r.value.id) && d.users[r.value.id] == r.value && r.value.email == email
    ensures r.Err? ==> r.error == ErrUserNotFound && !EmailTaken(d, email, None)
  {
    if EmailTaken(d, email, None) then
      var id :| id in d.users && Live(d, id) && d.users[id].email == email;
      Ok(d.users[id])
    else Err(ErrUserNotFound)
  }

  function GetByUsername(d: Db, username: string): (r: Result<User>)
    requires Sound(d)
    ensures r.Ok? ==> Live(d, r.value.id) && d.users[r.value.id] == r.value && r.value.username == username
    ensures r.Err? ==> r.error == ErrUserNotFound && !NameTaken(d, username, None)
  {
    if NameTaken(d, username, None) then
      var id :| id in d.users && Live(d, id) && d.users[id].username == username;
      Ok(d.users[id])
    else Err(ErrUserNotFound)
  }

  function Create(d: Db, u: User): Result<Db>
  {
    if u.id in d.users then Err(ErrStorage)
    else if EmailTaken(d, u.email, None) then Err(ErrEmailTaken)
    else if NameTaken(d, u.username, None) then Err(ErrUsernameTaken)
    else Ok(d.(users := d.users[u.id := u]))
  }

  /** UPDATE users SET username, email, avatar_url, bio, updated_at: neither the hash nor the status. */
  function Update(d: Db, u: User): Result<Db>
  {
    if !Live(d, u.id) then Err(ErrUserNotFound)
    else if EmailTaken(d, u.email, Some(u.id)) then Err(ErrEmailTaken)
    else if NameTaken(d, u.username, Some(u.id)) then Err(ErrUsernameTaken)
    else
      var row := d.users[u.id];
      Ok(d.(users := d.users[u.id := row.(username := u.username, email := u.email,
                                          avatarUrl := u.avatarUrl, bio := u.bio, updatedAt := u.updatedAt)]))
  }

  function UpdateStatus(d: Db, id: Id, status: string, lastSeen: int, dbNow: int): Db
  {
    if !Live(d, id) then d else
    d.(users := d.users[id := d.users[id].(status := status, lastSeen := lastSeen, updatedAt := dbNow)])
  }

  function Delete(d: Db, id: Id): Db
  {
    if Live(d, id) then d.(deleted := d.deleted + {id}) else d
  }

  lemma CreateKeepsSound(d: Db, u: User)
    requires Sound(d) && Create(d, u).Ok?
    ensures Sound(Create(d, u).value)
  {
    var d' := Create(d, u).value;
    assert forall id :: Live(d, id) ==> d.users[id].email != u.email && d.users[id].username != u.username;
    assert EmailsUnique(d') && NamesUnique(d');
  }

  lemma UpdateKeepsSound(d: Db, u: User)
    requires Sound(d) && Update(d, u).Ok?
    ensures Sound(Update(d, u).value)
  {
    UpdateKeepsEmails(d, u);
    UpdateKeepsNames(d, u);
  }

  lemma UpdateKeepsEmails(d: Db, u: User)
    requires EmailsUnique(d) && Update(d, u).Ok?
    ensures EmailsUnique(Update(d, u).value)
  {
    var d' := Update(d, u).value;
    assert forall id :: Live(d, id) && id != u.id ==> d.users[id].email != u.email && d'.users[id] == d.users[id];
  }

  lemma UpdateKeepsNames(d: Db, u: User)
    requires NamesUnique(d) && Update(d, u).Ok?
    ensures NamesUnique(Update(d, u).value)
  {
    var d' := Update(d, u).value;
    assert forall id :: Live(d, id) && id != u.id ==> d.users[id].username != u.username && d'.users[id] == d.users[id];
  }

  lemma OthersKeepSound(d: Db, id: Id, status: string, lastSeen: int, dbNow: int)
    requires Sound(d)
    ensures Sound(UpdateStatus(d, id, status, lastSeen, dbNow))
    ensures Sound(Delete(d, id))
  {
    SameNamesSound(d, UpdateStatus(d, id, status, lastSeen, dbNow));
    SameNamesSound(d, Delete(d, id));
  }

  /** Rows keep their id, email and name; some may get deleted. */
  lemma SameNamesSound(d: Db, d': Db)
    requires Sound(d) && d'.users.Keys == d.users.Keys && d.deleted <= d'.deleted <= d'.users.Keys
    requires forall id :: id in d.users ==>
               d'.users[id].id == id && d'.users[id].email == d.users[id].email &&
               d'.users[id].username == d.users[id].username
    ensures Sound(d')
  {
    assert forall id :: Live(d', id) ==> Live(d, id);
  }

  // ---- Use cases ----

  function NewUser(id: Id, username: string, email: string, hash: string, now: int): User
  {
    User(id, username, email, hash, "", "", "offline", now, now, now)
  }

  predicate NameValid(username: string)
  {
    3 <= |username| <= 50 && Validation.IsAlphanumeric(username)
  }

  predicate RegisterInputValid(username: string, email: string, password: string)
  {
    NameValid(username) && Validation.IsEmail(email) && 8 <= |password| <= 72
  }

  predicate LoginInputValid(email: string, password: string)
  {
    Validation.NonEmpty(email) && Validation.NonEmpty(password)
  }

  predicate ProfileInputValid(username: Option<string>, bio: Option<string>, avatarUrl: Option<string>)
  {
    && (username.Some? ==> NameValid(username.value))
    && (bio.Some? ==> |bio.value| <= 500)
    && (avatarUrl.Some? ==> Validation.IsUrl(avatarUrl.value))
  }

  /** The bounds, and the forms as regular expressions. */
  lemma InputsMean(username: string, email: string, password: string, bio: Option<string>, avatarUrl: Option<string>)
    ensures RegisterInputValid(username, email, password) <==>
              2 < |username| < 51 && Validation.Matches(Validation.AlphanumericPattern(), username) &&
              Validation.Matches(Validation.EmailPattern(), email) && 7 < |password| < 73
    ensures ProfileInputValid(Some(username), bio, avatarUrl) <==>
              2 < |username| < 51 && Validation.Matches(Validation.AlphanumericPattern(), username) &&
              ProfileInputValid(None, bio, avatarUrl)
    ensures ProfileInputValid(None, bio, avatarUrl) <==>
              (bio.None? || |bio.value| < 501) &&
              (avatarUrl.None? || Validation.Matches(Validation.UrlPattern(), avatarUrl.value))
    ensures LoginInputValid(email, password) <==>
              (exists i :: 0 <= i < |email| && !Validation.Space(email[i])) &&
              (exists i :: 0 <= i < |password| && !Validation.Space(password[i]))
  {
    Validation.AlphanumericIsPattern(username);
    Validation.EmailIsPattern(email);
    if avatarUrl.Some? { Validation.UrlIsPattern(avatarUrl.value); }
  }

  /** `hash` is what hashing the password gave, if it worked; `tokens` says whether tokens could
      be issued. A user without tokens is taken back. */
  function Register(d: Db, username: string, email: string, password: string, hash: Option<string>, tokens: bool,
                    newId: Id, now: int): (Result<User>, Db)
    requires Sound(d)
  {
    if !RegisterInputValid(username, email, password) then (Err(ErrValidation), d)
    else if GetByEmail(d, email).Ok? then (Err(ErrEmailTaken), d)
    else if GetByUsername(d, username).Ok? then (Err(ErrUsernameTaken), d)
    else if hash.None? then (Err(ErrInternal), d)
    else
      var u := NewUser(newId, username, email, hash.value, now);
      match Create(d, u)
      case Err(e) => (Err(e), d)
      case Ok(d') => if tokens then (Ok(u), d') else (Err(ErrInternal), Delete(d', u.id))
  }

  function Login(d: Db, email: string, password: string, check: (string, string) -> bool, tokens: bool): Result<User>
    requires Sound(d)
  {
    if !LoginInputValid(email, password) then Err(ErrValidation) else
    match GetByEmail(d, email)
    case Err(_) => Err(ErrInvalidCredentials)
    case Ok(u) =>
      if !check(password, u.passwordHash) then Err(ErrInvalidCredentials)
      else if !tokens then Err(ErrInternal)
      else Ok(u)
  }

  function PatchedProfile(u: User, username: Option<string>, bio: Option<string>, avatarUrl: Option<string>,
                          now: int): User
  {
    u.(username := if username.Some? then username.value else u.username,
       bio := if bio.Some? then bio.value else u.bio,
       avatarUrl := if avatarUrl.Some? then avatarUrl.value else u.avatarUrl,
       updatedAt := now)
  }

  function MayRename(d: Db, u: User, username: Option<string>): Result<()>
    requires Sound(d)
  {
    if username.None? || username.value == u.username then Ok(()) else
    var r := GetByUsername(d, username.value);
    if r.Ok? && r.value.id != u.id then Err(ErrUsernameTaken) else Ok(())
  }

  /** The profile as its owner sees it; the answer's hash, if any, is not looked at. */
  function UpdateProfile(d: Db, id: Id, username: Option<string>, bio: Option<string>, avatarUrl: Option<string>,
                         now: int): (Result<PublicUser>, Db)
    requires Sound(d)
  {
    if !ProfileInputValid(username, bio, avatarUrl) then (Err(ErrValidation), d) else
    match GetByID(d, id)
    case Err(e) => (Err(e), d)
    case Ok(u) =>
      match MayRename(d, u, username)
      case Err(e) => (Err(e), d)
      case Ok(_) =>
        var u' := PatchedProfile(u, username, bio, avatarUrl, now);
        match Update(d, u')
        case Err(e) => (Err(e), d)
        case Ok(d') => (Ok(ToJson(u')), d')
  }

  /** Whether the copy that is patched and written back has its hash makes no difference. */
  lemma HashNotWritten(d: Db, u: User, username: Option<string>, bio: Option<string>, avatarUrl: Option<string>,
                       now: int)
    requires Sound(d) && Live(d, u.id) && ProfileInputValid(username, bio, avatarUrl)
    requires u.(passwordHash := "") == d.users[u.id].(passwordHash := "")
    ensures var u' := PatchedProfile(u, username, bio, avatarUrl, now);
            UpdateProfile(d, u.id, username, bio, avatarUrl, now) ==
              if MayRename(d, u, username).Err? then (Err(MayRename(d, u, username).error), d)
              else match Update(d, u')
                   case Err(e) => (Err(e), d)
                   case Ok(d') => (Ok(ToJson(u')), d')
  {
  }

  /** Registration succeeds exactly when the input is valid, neither email nor username is taken by
      a live user, the id is new, and hashing and tokens work; it adds that user with that hash
      and no other. */
  lemma RegisterSucceedsIff(d: Db, username: string, email: string, password: string, hash: Option<string>,
                            tokens: bool, newId: Id, now: int)
    requires Sound(d)
    ensures var (r, d') := Register(d, username, email, password, hash, tokens, newId, now);
            && (r.Ok? <==> RegisterInputValid(username, email, password) &&
                           !EmailTaken(d, email, None) && !NameTaken(d, username, None) &&
                           hash.Some? && newId !in d.users && tokens)
            && (forall id :: id in d.users ==> id in d'.users && d'.users[id] == d.users[id])
            && (forall id :: Live(d', id) <==> Live(d, id) || (r.Ok? && id == newId))
            && (r.Ok? ==>
                 r.value == d'.users[newId] &&
                 r.value == User(newId, username, email, hash.value, "", "", "offline", now, now, now))
  {
    if EmailTaken(d, email, None) { assert GetByEmail(d, email).Ok?; }
    if NameTaken(d, username, None) { assert GetByUsername(d, username).Ok?; }
  }

  /** The live user with this email and the hash that this password checks against. */
  predicate Proves(d: Db, id: Id, email: string, password: string, check: (string, string) -> bool)
  {
    Live(d, id) && d.users[id].email == email && check(password, d.users[id].passwordHash)
  }

  /** Logging in answers the one live user with that email whose hash the password matches. That
      there is no such user, or that the password is wrong, is answered alike. */
  ghost predicate LoginAnswers(d: Db, email: string, password: string, check: (string, string) -> bool, tokens: bool,
                               r: Result<User>)
  {
    if !LoginInputValid(email, password) then r == Err(ErrValidation)
    else if exists id :: Proves(d, id, email, password, check) then
      if tokens then r.Ok? && Proves(d, r.value.id, email, password, check) && r.value == d.users[r.value.id]
      else r == Err(ErrInternal)
    else r == Err(ErrInvalidCredentials)
  }

  lemma LoginSucceedsIff(d: Db, email: string, password: string, check: (string, string) -> bool, tokens: bool,
                         r: Result<User>)
    requires Sound(d)
    ensures LoginAnswers(d, email, password, check, tokens, r) <==> r == Login(d, email, password, check, tokens)
  {
    forall id: Id | Proves(d, id, email, password, check)
      ensures GetByEmail(d, email) == Ok(d.users[id])
    {
      assert EmailTaken(d, email, None);
    }
    if GetByEmail(d, email).Ok? && check(password, GetByEmail(d, email).value.passwordHash) {
      assert Proves(d, GetByEmail(d, email).value.id, email, password, check);
    }
  }

  /** The given fields are set, and the time; the others are as they were. */
  predicate Patched(u: User, u': User, username: Option<string>, bio: Option<string>, avatarUrl: Option<string>,
                    now: int)
  {
    && (if username.Some? then u'.username == username.value else u'.username == u.username)
    && (if bio.Some? then u'.bio == bio.value else u'.bio == u.bio)
    && (if avatarUrl.Some? then u'.avatarUrl == avatarUrl.value else u'.avatarUrl == u.avatarUrl)
    && u'.updatedAt == now && u'.id == u.id && u'.email == u.email && u'.passwordHash == u.passwordHash
    && u'.status == u.status && u'.lastSeen == u.lastSeen && u'.createdAt == u.createdAt
  }

  /** A profile update succeeds exactly for valid input and a live user whose new name no other live
      user has; it changes that user's given fields and nothing else, neither hash nor email. */
  lemma UpdateProfileSucceedsIff(d: Db, id: Id, username: Option<string>, bio: Option<string>,
                                 avatarUrl: Option<string>, now: int)
    requires Sound(d)
    ensures var (r, d') := UpdateProfile(d, id, username, bio, avatarUrl, now);
            && (r.Ok? <==> ProfileInputValid(username, bio, avatarUrl) && Live(d, id) &&
                           (username.Some? ==> !NameTaken(d, username.value, Some(id))))
            && (r.Err? ==> d' == d)
            && (r.Ok? ==> d' == d.(users := d.users[id := d'.users[id]]) && r.value == ToJson(d'.users[id]) &&
                          Patched(d.users[id], d'.users[id], username, bio, avatarUrl, now))
  {
    if Live(d, id) {
      var u := d.users[id];
      assert !EmailTaken(d, u.email, Some(id));
      assert !NameTaken(d, u.username, Some(id));
      if username.Some? && NameTaken(d, username.value, Some(id)) {
        var other: Id :| other in d.users && Live(d, other) && d.users[other].username == username.value && other != id;
        assert NameTaken(d, username.value, None);
        assert GetByUsername(d, username.value).Ok?;
      }
    }
  }

  // ---- Any use case ----

  datatype Op =
    | RegisterOp(username: string, email: string, password: string, hash: Option<string>, tokens: bool,
                 newId: Id, now: int)
    | LoginOp(email: string, password: string, check: (string, string) -> bool, tokens: bool)
    | ProfileOp(id: Id)
    | UpdateProfileOp(id: Id, newName: Option<string>, bio: Option<string>, avatarUrl: Option<string>, now: int)
    | StatusOp(id: Id, online: bool, now: int, dbNow: int)

  /** Users are shown without their hash. */
  datatype Reply =
    | Done
    | UserReply(user: PublicUser)

  function Shown(r: Result<User>): Result<Reply>
  {
    if r.Ok? then Ok(UserReply(ToJson(r.value))) else Err(r.error)
  }

  /** What is shown of a user, and cached, is all but the hash, each field under its name. */
  lemma ShownFields(u: User)
    ensures var p := ToJson(u);
            && p.id == u.id && p.username == u.username && p.email == u.email && p.avatarUrl == u.avatarUrl
            && p.bio == u.bio && p.status == u.status && p.lastSeen == u.lastSeen
            && p.createdAt == u.createdAt && p.updatedAt == u.updatedAt
            && FromJson(p) == u.(passwordHash := "")
  {
  }

  function StatusName(online: bool): string { if online then "online" else "offline" }

  function Exec(d: Db, op: Op): (Result<Reply>, Db)
    requires Sound(d)
  {
    match op
    case RegisterOp(username, email, password, hash, tokens, newId, now) =>
      var (r, d') := Register(d, username, email, password, hash, tokens, newId, now);
      (Shown(r), d')
    case LoginOp(email, password, check, tokens) => (Shown(Login(d, email, password, check, tokens)), d)
    case ProfileOp(id) => (Shown(GetByID(d, id)), d)
    case UpdateProfileOp(id, username, bio, avatarUrl, now) =>
      var (r, d') := UpdateProfile(d, id, username, bio, avatarUrl, now);
      (if r.Ok? then Ok(UserReply(r.value)) else Err(r.error), d')
    case StatusOp(id, online, now, dbNow) => (Ok(Done), UpdateStatus(d, id, StatusName(online), now, dbNow))
  }

  /** Coming online or going offline sets the status and the times of a live user and nothing else. */
  lemma StatusOutcome(d: Db, id: Id, online: bool, now: int, dbNow: int)
    requires Sound(d)
    ensures var (r, d') := Exec(d, StatusOp(id, online, now, dbNow));
            && r == Ok(Done)
            && if !(id in d.users && id !in d.deleted) then d' == d else
               && d' == d.(users := d.users[id := d'.users[id]])
               && var u, u' := d.users[id], d'.users[id];
               && u'.status == (if online then "online" else "offline") && u'.lastSeen == now && u'.updatedAt == dbNow
               && u' == u.(status := u'.status, lastSeen := u'.lastSeen, updatedAt := u'.updatedAt)
  {
  }

  lemma ProfileOutcome(d: Db, id: Id)
    requires Sound(d)
    ensures var (r, d') := Exec(d, ProfileOp(id));
            && d' == d
            && r == if id in d.users && id !in d.deleted then Ok(UserReply(ToJson(d.users[id])))
                    else Err(ErrUserNotFound)
  {
  }

  /** Why a registration is refused. */
  lemma RegisterRefused(d: Db, username: string, email: string, password: string, hash: Option<string>,
                        tokens: bool, newId: Id, now: int)
    requires Sound(d)
    ensures var r := Exec(d, RegisterOp(username, email, password, hash, tokens, newId, now)).0;
            r.Err? ==>
              r.error == if !RegisterInputValid(username, email, password) then ErrValidation
                         else if exists id :: Live(d, id) && d.users[id].email == email then ErrEmailTaken
                         else if exists id :: Live(d, id) && d.users[id].username == username then ErrUsernameTaken
                         else if hash.None? then ErrInternal
                         else if newId in d.users then ErrStorage
                         else ErrInternal
  {
    if id: Id :| Live(d, id) && d.users[id].email == email { assert EmailTaken(d, email, None); }
    if id: Id :| Live(d, id) && d.users[id].username == username { assert NameTaken(d, username, None); }
  }

  lemma UpdateProfileRefused(d: Db, id: Id, username: Option<string>, bio: Option<string>, avatarUrl: Option<string>,
                             now: int)
    requires Sound(d)
    ensures var r := Exec(d, UpdateProfileOp(id, username, bio, avatarUrl, now)).0;
            r.Err? ==>
              r.error == if !ProfileInputValid(username, bio, avatarUrl) then ErrValidation
                         else if !Live(d, id) then ErrUserNotFound
                         else ErrUsernameTaken
  {
    UpdateProfileSucceedsIff(d, id, username, bio, avatarUrl, now);
  }

  function LiveUsers(d: Db): set<Id>
  {
    set id | id in d.users.Keys && Live(d, id)
  }

  lemma RegisterKeepsSound(d: Db, username: string, email: string, password: string, hash: Option<string>,
                           tokens: bool, newId: Id, now: int)
    requires Sound(d)
    ensures Sound(Register(d, username, email, password, hash, tokens, newId, now).1)
  {
    if hash.Some? {
      var u := NewUser(newId, username, email, hash.value, now);
      if Create(d, u).Ok? {
        CreateKeepsSound(d, u);
        OthersKeepSound(Create(d, u).value, newId, "", 0, 0);
      }
    }
  }

  /** Use cases keep what the indexes enforce; live users only come, by registering. */
  lemma ExecKeeps(d: Db, op: Op)
    requires Sound(d)
    ensures var d' := Exec(d, op).1;
            && Sound(d')
            && (LiveUsers(d') == LiveUsers(d) || (op.RegisterOp? && LiveUsers(d') == LiveUsers(d) + {op.newId}))
  {
    match op
    case RegisterOp(username, email, password, hash, tokens, newId, now) =>
      RegisterKeepsSound(d, username, email, password, hash, tokens, newId, now);
      RegisterSucceedsIff(d, username, email, password, hash, tokens, newId, now);
      var (r, d') := Register(d, username, email, password, hash, tokens, newId, now);
      assert LiveUsers(d') == if r.Ok? then LiveUsers(d) + {newId} else LiveUsers(d);
    case UpdateProfileOp(id, username, bio, avatarUrl, now) =>
      UpdateProfileSucceedsIff(d, id, username, bio, avatarUrl, now);
      var d' := UpdateProfile(d, id, username, bio, avatarUrl, now).1;
      if d' != d { UpdateKeepsSound(d, PatchedProfile(d.users[id], username, bio, avatarUrl, now)); }
      assert LiveUsers(d') == LiveUsers(d);
    case StatusOp(id, online, now, dbNow) =>
      OthersKeepSound(d, id, StatusName(online), now, dbNow);
      assert LiveUsers(UpdateStatus(d, id, StatusName(online), now, dbNow)) == LiveUsers(d);
    case _ =>
  }

  // ---- Any interleaving ----

  /** Use cases in flight hold copies of users, read from the origin or from the cache. */
  datatype State = State(d: Db, cache: map<Id, PublicUser>, copies: map<nat, User>)

  datatype Step =
    | RegisterStep(user: User)
    | TakeBack(id: Id)                      // registration rolled back
    | ReadOrigin(pid: nat, id: Id)
    | ReadCache(pid: nat, id: Id)
    | FillCache(pid: nat)
    | DropCached(id: Id)                    // Del, expiry, eviction
    | WriteProfile(pid: nat, username: Option<string>, bio: Option<string>, avatarUrl: Option<string>, now: int)
    | SetStatus(id: Id, status: string, lastSeen: int, dbNow: int)

  predicate Enabled(s: State, step: Step)
  {
    match step
    case RegisterStep(u) => Create(s.d, u).Ok?
    case TakeBack(id) => true
    case ReadOrigin(_, id) => Live(s.d, id)
    case ReadCache(_, id) => id in s.cache
    case FillCache(pid) => pid in s.copies
    case DropCached(_) => true
    case WriteProfile(pid, username, bio, avatarUrl, now) =>
      pid in s.copies && Update(s.d, PatchedProfile(s.copies[pid], username, bio, avatarUrl, now)).Ok?
    case SetStatus(_, _, _, _) => true
  }

  function Apply(s: State, step: Step): State
    requires Enabled(s, step)
  {
    match step
    case RegisterStep(u) => s.(d := Create(s.d, u).value)
    case TakeBack(id) => s.(d := Delete(s.d, id))
    case ReadOrigin(pid, id) => s.(copies := s.copies[pid := s.d.users[id]])
    case ReadCache(pid, id) => s.(copies := s.copies[pid := FromJson(s.cache[id])])
    case FillCache(pid) => s.(cache := s.cache[s.copies[pid].id := ToJson(s.copies[pid])])
    case DropCached(id) => s.(cache := s.cache - {id})
    case WriteProfile(pid, username, bio, avatarUrl, now) =>
      s.(d := Update(s.d, PatchedProfile(s.copies[pid], username, bio, avatarUrl, now)).value)
    case SetStatus(id, status, lastSeen, dbNow) => s.(d := UpdateStatus(s.d, id, status, lastSeen, dbNow))
  }

  ghost predicate Legal(s: State, steps: seq<Step>)
    decreases |steps|
  {
    steps == [] || (Enabled(s, steps[0]) && Legal(Apply(s, steps[0]), steps[1..]))
  }

  ghost function Run(s: State, steps: seq<Step>): State
    requires Legal(s, steps)
    decreases |steps|
  {
    if steps == [] then s else Run(Apply(s, steps[0]), steps[1..])
  }

  /** Every copy in flight and every cached user still has the right email. */
  ghost predicate Inv(s: State)
  {
    && Sound(s.d)
    && (forall pid :: pid in s.copies ==> EmailKnown(s.d, s.copies[pid].id, s.copies[pid].email))
    && (forall id :: id in s.cache ==> s.cache[id].id == id && EmailKnown(s.d, id, s.cache[id].email))
  }

  predicate EmailKnown(d: Db, id: Id, email: string)
  {
    id in d.users && d.users[id].email == email
  }

  predicate SameCredentials(u: User, v: User)
  {
    v.email == u.email && v.passwordHash == u.passwordHash
  }

  /** No row goes, and none changes its email or its hash; a deleted one stays deleted. */
  ghost predicate CredentialsKept(d: Db, d': Db)
  {
    d.deleted <= d'.deleted &&
    forall id :: id in d.users ==> id in d'.users && SameCredentials(d.users[id], d'.users[id])
  }

  lemma KnownLater(d: Db, d': Db, id: Id, email: string)
    requires CredentialsKept(d, d') && EmailKnown(d, id, email)
    ensures EmailKnown(d', id, email)
  {
    assert SameCredentials(d.users[id], d'.users[id]);
  }

  /** A step that only writes the database keeps the invariant if it keeps rows sound and credentials. */
  lemma WriteKeeps(s: State, d': Db)
    requires Inv(s) && Sound(d') && CredentialsKept(s.d, d')
    ensures Inv(s.(d := d'))
  {
    forall pid | pid in s.copies
      ensures EmailKnown(d', s.copies[pid].id, s.copies[pid].email)
    {
      KnownLater(s.d, d', s.copies[pid].id, s.copies[pid].email);
    }
    forall id | id in s.cache
      ensures s.cache[id].id == id && EmailKnown(d', id, s.cache[id].email)
    {
      KnownLater(s.d, d', id, s.cache[id].email);
    }
  }

  /** The copy may be old and lack the hash, but its email is right, and the hash is not written. */
  lemma ProfileKeeps(s: State, pid: nat, username: Option<string>, bio: Option<string>, avatarUrl: Option<string>,
                     now: int)
    requires Inv(s) && Enabled(s, WriteProfile(pid, username, bio, avatarUrl, now))
    ensures var u := PatchedProfile(s.copies[pid], username, bio, avatarUrl, now);
            Sound(Update(s.d, u).value) && CredentialsKept(s.d, Update(s.d, u).value)
  {
    var u := PatchedProfile(s.copies[pid], username, bio, avatarUrl, now);
    assert EmailKnown(s.d, s.copies[pid].id, s.copies[pid].email);
    UpdateKeepsSound(s.d, u);
  }

  lemma CopyKeeps(s: State, pid: nat, u: User)
    requires Inv(s) && EmailKnown(s.d, u.id, u.email)
    ensures Inv(s.(copies := s.copies[pid := u]))
  {
  }

  lemma CacheKeeps(s: State, cache: map<Id, PublicUser>)
    requires Inv(s)
    requires forall id :: id in cache ==>
               || (id in s.cache && cache[id] == s.cache[id])
               || (cache[id].id == id && EmailKnown(s.d, id, cache[id].email))
    ensures Inv(s.(cache := cache))
  {
  }

  lemma KeptSelf(d: Db)
    ensures CredentialsKept(d, d)
  {
  }

  lemma StepKeeps(s: State, step: Step)
    requires Inv(s) && Enabled(s, step)
    ensures Inv(Apply(s, step)) && CredentialsKept(s.d, Apply(s, step).d)
  {
    KeptSelf(s.d);
    match step
    case RegisterStep(u) =>
      CreateKeepsSound(s.d, u);
      WriteKeeps(s, Create(s.d, u).value);
    case WriteProfile(pid, username, bio, avatarUrl, now) =>
      ProfileKeeps(s, pid, username, bio, avatarUrl, now);
      WriteKeeps(s, Apply(s, step).d);
    case TakeBack(id) =>
      OthersKeepSound(s.d, id, "", 0, 0);
      WriteKeeps(s, Delete(s.d, id));
    case SetStatus(id, status, lastSeen, dbNow) =>
      OthersKeepSound(s.d, id, status, lastSeen, dbNow);
      WriteKeeps(s, UpdateStatus(s.d, id, status, lastSeen, dbNow));
    case ReadOrigin(pid, id) => CopyKeeps(s, pid, s.d.users[id]);
    case ReadCache(pid, id) => CopyKeeps(s, pid, FromJson(s.cache[id]));
    case FillCache(pid) => CacheKeeps(s, s.cache[s.copies[pid].id := ToJson(s.copies[pid])]);
    case DropCached(id) => CacheKeeps(s, s.cache - {id});
  }

  lemma {:induction false} RunKeeps(s: State, steps: seq<Step>)
    requires Inv(s) && Legal(s, steps)
    ensures Inv(Run(s, steps)) && CredentialsKept(s.d, Run(s, steps).d)
    decreases |steps|
  {
    if steps != [] {
      StepKeeps(s, steps[0]);
      RunKeeps(Apply(s, steps[0]), steps[1..]);
    }
  }

  ghost predicate Start(s: State)
  {
    Sound(s.d) && s.cache == map[] && s.copies == map[]
  }

  /** Whatever profile updates, status changes, cache fills and losses are interleaved after a
      registration, logging in with that email checks the hash stored then. */
  lemma LoginChecksRegisteredHash(start: State, before: seq<Step>, u: User, after: seq<Step>,
                                  password: string, check: (string, string) -> bool, tokens: bool)
    requires Start(start) && Legal(start, before)
    requires Enabled(Run(start, before), RegisterStep(u))
    requires Legal(Apply(Run(start, before), RegisterStep(u)), after)
    requires u.id !in Run(Apply(Run(start, before), RegisterStep(u)), after).d.deleted
    ensures var d := Run(Apply(Run(start, before), RegisterStep(u)), after).d;
            && Sound(d) && u.id in d.users && d.users[u.id].passwordHash == u.passwordHash
            && Login(d, u.email, password, check, tokens) ==
                 if !LoginInputValid(u.email, password) then Err(ErrValidation)
                 else if !check(password, u.passwordHash) then Err(ErrInvalidCredentials)
                 else if tokens then Ok(d.users[u.id]) else Err(ErrInternal)
  {
    RunKeeps(start, before);
    var s0 := Run(start, before);
    StepKeeps(s0, RegisterStep(u));
    var s1 := Apply(s0, RegisterStep(u));
    RunKeeps(s1, after);
    var d := Run(s1, after).d;
    assert s1.d.users[u.id] == u;
    assert SameCredentials(u, d.users[u.id]);
    assert EmailTaken(d, u.email, None);
    assert GetByEmail(d, u.email).Ok?;
  }
}
