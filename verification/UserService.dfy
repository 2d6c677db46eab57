/** The caching user repository and the user use cases on top of it, in sequence. The cache is
    the one the chat repository uses. */
module UserService {
  import opened Wrappers
  import opened Domain
  import opened CacheKeys
  import opened SharedCaching
  import Chats = CachedChats
  import Spec = Accounts

  class Database {
    var d: Spec.Db

    constructor (d0: Spec.Db)
      ensures d == d0
    {
      d := d0;
    }
  }

  ghost predicate UsersTrue(d: Spec.Db, entries: map<Key, CacheValue>)
  {
    forall k :: k in entries && k.UserKey? ==>
      entries[k].UserJson? && Spec.Live(d, k.id) && entries[k].user == Spec.ToJson(d.users[k.id])
  }

  /** Entries of the other repository are left alone. */
  ghost predicate OnlyUsersChange(before: map<Key, CacheValue>, after: map<Key, CacheValue>)
  {
    forall k: Key :: !k.UserKey? ==>
      (k in before <==> k in after) && (k in before ==> after[k] == before[k])
  }

  /** The user as the origin has it, except that a cached one comes without its hash. */
  ghost predicate SameProfile(got: Result<Spec.User>, want: Result<Spec.User>)
  {
    match want
    case Err(e) => got == Err(e)
    case Ok(u) => got.Ok? && (got.value == u || got.value == u.(passwordHash := ""))
  }

  /** What the chat repository cached stays true under every call of the user repository. */
  lemma ChatsStayCoherent(t: Chats.Sql.Tables, before: map<Key, CacheValue>, after: map<Key, CacheValue>)
    requires Chats.Coherent(t, before) && OnlyUsersChange(before, after)
    ensures Chats.Coherent(t, after)
  {
    forall k | k in after
      ensures Chats.True(t, k, after[k])
    {
      assert k.UserKey? || (k in before && Chats.True(t, k, before[k]));
    }
  }

  /** And the other way round. */
  lemma UsersStayTrue(d: Spec.Db, before: map<Key, CacheValue>, after: map<Key, CacheValue>)
    requires UsersTrue(d, before) && Chats.OnlyChatsChange(before, after)
    ensures UsersTrue(d, after)
  {
    forall k: Key | k in after && k.UserKey?
      ensures after[k].UserJson? && Spec.Live(d, k.id) && after[k].user == Spec.ToJson(d.users[k.id])
    {
      assert UserKey(k.id) in before;
    }
  }

  class UserRepo {
    const db: Database
    const cache: SharedCache

    constructor (db: Database, cache: SharedCache)
      ensures this.db == db && this.cache == cache
    {
      this.db, this.cache := db, cache;
    }

    ghost predicate Valid()
      reads this, db, cache
    {
      cache.Valid() && Spec.Sound(db.d) && UsersTrue(db.d, cache.entries)
    }

    method GetByID(id: Id) returns (r: Result<Spec.User>)
      requires Valid()
      modifies cache
      ensures Valid() && OnlyUsersChange(old(cache.entries), cache.entries)
      ensures SameProfile(r, Spec.GetByID(db.d, id))
    {
      var key := UserKey(id);
      var hit := cache.Get(key);
      if hit.Some? && hit.value.UserJson? {
        return Ok(Spec.FromJson(hit.value.user));
      }
      r := Spec.GetByID(db.d, id);
      if r.Err? {
        return;
      }
      cache.TrySet(key, UserJson(Spec.ToJson(r.value)));
    }

    method Create(u: Spec.User) returns (r: Result<()>)
      requires Valid()
      modifies db
      ensures Valid()
      ensures var w := Spec.Create(old(db.d), u);
              db.d == (if w.Ok? then w.value else old(db.d)) && r == if w.Ok? then Ok(()) else Err(w.error)
    {
      match Spec.Create(db.d, u) {
        case Err(e) => return Err(e);
        case Ok(d') =>
          Spec.CreateKeepsSound(db.d, u);
          db.d := d';
          return Ok(());
      }
    }

    method Update(u: Spec.User) returns (r: Result<()>)
      requires Valid()
      modifies db, cache
      ensures Valid() && OnlyUsersChange(old(cache.entries), cache.entries)
      ensures var w := Spec.Update(old(db.d), u);
              db.d == (if w.Ok? then w.value else old(db.d)) && r == if w.Ok? then Ok(()) else Err(w.error)
    {
      match Spec.Update(db.d, u) {
        case Err(e) => return Err(e);
        case Ok(d') =>
          Spec.UpdateKeepsSound(db.d, u);
          db.d := d';
          cache.Del(UserKey(u.id));
          return Ok(());
      }
    }

    method UpdateStatus(id: Id, status: string, lastSeen: int, dbNow: int)
      requires Valid()
      modifies db, cache
      ensures Valid() && OnlyUsersChange(old(cache.entries), cache.entries)
      ensures db.d == Spec.UpdateStatus(old(db.d), id, status, lastSeen, dbNow)
    {
      Spec.OthersKeepSound(db.d, id, status, lastSeen, dbNow);
      db.d := Spec.UpdateStatus(db.d, id, status, lastSeen, dbNow);
      cache.Del(UserKey(id));
    }

    method Delete(id: Id)
      requires Valid()
      modifies db, cache
      ensures Valid() && OnlyUsersChange(old(cache.entries), cache.entries)
      ensures db.d == Spec.Delete(old(db.d), id)
    {
      Spec.OthersKeepSound(db.d, id, "", 0, 0);
      db.d := Spec.Delete(db.d, id);
      cache.Del(UserKey(id));
    }
  }

  class Service {
    const users: UserRepo

    constructor (users: UserRepo)
      ensures this.users == users
    {
      this.users := users;
    }

    ghost predicate Valid()
      reads this, users, users.db, users.cache
    {
      users.Valid()
    }

    method Register(username: string, email: string, password: string, hash: Option<string>, tokens: bool,
                    newId: Id, now: int) returns (r: Result<Spec.User>)
      requires Valid()
      modifies users.db, users.cache
      ensures Valid() && OnlyUsersChange(old(users.cache.entries), users.cache.entries)
      ensures (r, users.db.d) == Spec.Register(old(users.db.d), username, email, password, hash, tokens, newId, now)
    {
      if !Spec.RegisterInputValid(username, email, password) {
        return Err(ErrValidation);
      }
      var byEmail := Spec.GetByEmail(users.db.d, email);
      if byEmail.Ok? {
        return Err(ErrEmailTaken);
      }
      var byName := Spec.GetByUsername(users.db.d, username);
      if byName.Ok? {
        return Err(ErrUsernameTaken);
      }
      if hash.None? {
        return Err(ErrInternal);
      }
      var u := Spec.User(newId, username, email, hash.value, "", "", "offline", now, now, now);
      var created := users.Create(u);
      if created.Err? {
        return Err(created.error);
      }
      if !tokens {
        users.Delete(u.id);
        return Err(ErrInternal);
      }
      return Ok(u);
    }

    method Login(email: string, password: string, check: (string, string) -> bool, tokens: bool)
      returns (r: Result<Spec.User>)
      requires Valid()
      ensures Spec.LoginAnswers(users.db.d, email, password, check, tokens, r)
    {
      ghost var answer := Spec.Login(users.db.d, email, password, check, tokens);
      Spec.LoginSucceedsIff(users.db.d, email, password, check, tokens, answer);
      if !Spec.LoginInputValid(email, password) {
        return Err(ErrValidation);
      }
      var found := Spec.GetByEmail(users.db.d, email);
      if found.Err? {
        return Err(ErrInvalidCredentials);
      }
      if !check(password, found.value.passwordHash) {
        return Err(ErrInvalidCredentials);
      }
      if !tokens {
        return Err(ErrInternal);
      }
      return found;
    }

    method GetProfile(id: Id) returns (r: Result<Spec.User>)
      requires Valid()
      modifies users.cache
      ensures Valid() && OnlyUsersChange(old(users.cache.entries), users.cache.entries)
      ensures Spec.Shown(r) == Spec.Shown(Spec.GetByID(users.db.d, id))
    {
      r := users.GetByID(id);
    }

    /** Reads a user that may lack its hash, assigns the given fields, and writes the whole back. */
    method UpdateProfile(id: Id, username: Option<string>, bio: Option<string>, avatarUrl: Option<string>, now: int)
      returns (r: Result<Spec.User>)
      requires Valid()
      modifies users.db, users.cache
      ensures Valid() && OnlyUsersChange(old(users.cache.entries), users.cache.entries)
      ensures var (want, d') := Spec.UpdateProfile(old(users.db.d), id, username, bio, avatarUrl, now);
              users.db.d == d' && (if r.Ok? then Ok(Spec.ToJson(r.value)) else Err(r.error)) == want
    {
      if !Spec.ProfileInputValid(username, bio, avatarUrl) {
        return Err(ErrValidation);
      }
      var found := users.GetByID(id);
      if found.Err? {
        return found;
      }
      var u := found.value;
      Spec.HashNotWritten(users.db.d, u, username, bio, avatarUrl, now);
      if username.Some? && username.value != u.username {
        var existing := Spec.GetByUsername(users.db.d, username.value);
        if existing.Ok? && existing.value.id != id {
          return Err(ErrUsernameTaken);
        }
        u := u.(username := username.value);
      }
      if bio.Some? {
        u := u.(bio := bio.value);
      }
      if avatarUrl.Some? {
        u := u.(avatarUrl := avatarUrl.value);
      }
      u := u.(updatedAt := now);
      assert u == Spec.PatchedProfile(found.value, username, bio, avatarUrl, now);
      var w := users.Update(u);
      if w.Err? {
        return Err(w.error);
      }
      return Ok(u);
    }

    method SetStatus(id: Id, online: bool, now: int, dbNow: int)
      requires Valid()
      modifies users.db, users.cache
      ensures Valid() && OnlyUsersChange(old(users.cache.entries), users.cache.entries)
      ensures users.db.d ==
                Spec.UpdateStatus(old(users.db.d), id, Spec.StatusName(online), now, dbNow)
    {
      if online {
        users.UpdateStatus(id, "online", now, dbNow);
      } else {
        users.UpdateStatus(id, "offline", now, dbNow);
      }
    }
  }
}
