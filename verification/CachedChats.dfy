/** The caching chat repository: read-through, write-invalidate (or write-through), one cache
    operation at a time. Called in sequence, it answers as the origin does. */
module CachedChats {
  import opened Domain
  import opened CacheKeys
  import opened SharedCaching
  import Sql = ChatTables

  class Database {
    var t: Sql.Tables

    constructor (t0: Sql.Tables)
      ensures t == t0
    {
      t := t0;
    }
  }

  /** What an entry may say of the tables. */
  ghost predicate True(t: Sql.Tables, k: Key, v: CacheValue)
  {
    match k
    case UserKey(_) => true
    case ChatKey(id) => v.ChatJson? && Sql.GetByID(t, id) == Ok(v.chat)
    case MemberKey(chat, user) =>
      v.MemberJson? && v.member.chat == chat && v.member.user == user &&
      Sql.GetMember(t, chat, user) == Ok(v.member.membership)
    case IsMemberKey(chat, user) => v.Flag? && (v.raw == "1" <==> Sql.IsMember(t, chat, user))
  }

  ghost predicate Coherent(t: Sql.Tables, entries: map<Key, CacheValue>)
  {
    forall k :: k in entries ==> True(t, k, entries[k])
  }

  /** Entries of the user repository, which shares the cache, are left alone. */
  ghost predicate OnlyChatsChange(before: map<Key, CacheValue>, after: map<Key, CacheValue>)
  {
    forall id: Id ::
      (UserKey(id) in before <==> UserKey(id) in after) &&
      (UserKey(id) in before ==> after[UserKey(id)] == before[UserKey(id)])
  }

  /** A member as the tables have it; the joined user aside. */
  ghost predicate SameMember(got: Result<ChatMember>, chat: Id, user: Id, want: Result<Membership>)
  {
    match want
    case Err(e) => got == Err(e)
    case Ok(m) => got.Ok? && got.value.chat == chat && got.value.user == user && got.value.membership == m
  }

  // ---- What each write and its cache operations leave ----

  lemma DropCoherent(t: Sql.Tables, entries: map<Key, CacheValue>, key: Key)
    requires Coherent(t, entries)
    ensures Coherent(t, entries - {key})
  {
    forall k | k in entries - {key}
      ensures True(t, k, entries[k])
    {
    }
  }

  lemma DeleteCoherent(t: Sql.Tables, entries: map<Key, CacheValue>, id: Id)
    requires Coherent(t, entries)
    ensures Coherent(Sql.Delete(t, id), entries - {ChatKey(id)})
  {
    forall k | k in entries - {ChatKey(id)}
      ensures True(Sql.Delete(t, id), k, entries[k])
    {
      assert True(t, k, entries[k]);
    }
  }

  /** Nothing is cached of the chat, nor of the first n of these members. */
  ghost predicate Dropped(entries: map<Key, CacheValue>, chat: Id, members: seq<ChatMember>, n: int)
  {
    ChatKey(chat) !in entries &&
    forall i :: 0 <= i < n <= |members| ==>
      IsMemberKey(chat, members[i].user) !in entries && MemberKey(chat, members[i].user) !in entries
  }

  lemma MemberDropped(t: Sql.Tables, entries: map<Key, CacheValue>, chat: Id, members: seq<ChatMember>, n: int)
    requires Coherent(t, entries) && Dropped(entries, chat, members, n) && 0 <= n < |members|
    ensures var user := members[n].user;
            var after := entries - {IsMemberKey(chat, user)} - {MemberKey(chat, user)};
            && Coherent(t, after) && Dropped(after, chat, members, n + 1) && OnlyChatsChange(entries, after)
  {
    DropCoherent(t, entries, IsMemberKey(chat, members[n].user));
    DropCoherent(t, entries - {IsMemberKey(chat, members[n].user)}, MemberKey(chat, members[n].user));
  }

  lemma AddCoherent(t: Sql.Tables, entries: map<Key, CacheValue>, m: ChatMember)
    requires Coherent(t, entries) && Sql.AddMember(t, m).Ok?
    ensures Coherent(Sql.AddMember(t, m).value,
              entries[IsMemberKey(m.chat, m.user) := Flag("1")][MemberKey(m.chat, m.user) := MemberJson(m)])
  {
    forall k | k in entries
      ensures k == IsMemberKey(m.chat, m.user) || True(Sql.AddMember(t, m).value, k, entries[k])
    {
      assert True(t, k, entries[k]);
    }
  }

  lemma RemoveCoherent(t: Sql.Tables, entries: map<Key, CacheValue>, chat: Id, user: Id)
    requires Coherent(t, entries) && Sql.RemoveMember(t, chat, user).Ok?
    ensures Coherent(Sql.RemoveMember(t, chat, user).value,
              entries - {IsMemberKey(chat, user)} - {MemberKey(chat, user)})
  {
    forall k | k in entries - {IsMemberKey(chat, user)} - {MemberKey(chat, user)}
      ensures True(Sql.RemoveMember(t, chat, user).value, k, entries[k])
    {
      assert True(t, k, entries[k]);
    }
  }

  lemma RoleCoherent(t: Sql.Tables, entries: map<Key, CacheValue>, chat: Id, user: Id, role: Role)
    requires Coherent(t, entries) && Sql.UpdateMemberRole(t, chat, user, role).Ok?
    ensures Coherent(Sql.UpdateMemberRole(t, chat, user, role).value, entries - {MemberKey(chat, user)})
  {
    forall k | k in entries - {MemberKey(chat, user)}
      ensures True(Sql.UpdateMemberRole(t, chat, user, role).value, k, entries[k])
    {
      assert True(t, k, entries[k]);
    }
  }

  class ChatRepo {
    const db: Database
    const cache: SharedCache

    constructor (db: Database, cache: SharedCache)
      ensures this.db == db && this.cache == cache
    {
      this.db, this.cache := db, cache;
    }

    ghost predicate Valid()
      reads this, db, cache
    {
      cache.Valid() && Coherent(db.t, cache.entries)
    }

    method GetByID(id: Id) returns (r: Result<Chat>)
      requires Valid()
      modifies cache
      ensures Valid() && OnlyChatsChange(old(cache.entries), cache.entries)
      ensures r == Sql.GetByID(db.t, id)
    {
      var key := ChatKey(id);
      var hit := cache.Get(key);
      if hit.Some? && hit.value.ChatJson? {
        return Ok(hit.value.chat);
      }
      r := Sql.GetByID(db.t, id);
      if r.Err? {
        return;
      }
      cache.TrySet(key, ChatJson(r.value));
    }

    method IsMember(chat: Id, user: Id) returns (ok: bool)
      requires Valid()
      modifies cache
      ensures Valid() && OnlyChatsChange(old(cache.entries), cache.entries)
      ensures ok == Sql.IsMember(db.t, chat, user)
    {
      var key := IsMemberKey(chat, user);
      var hit := cache.Get(key);
      if hit.Some? && hit.value.Flag? {
        return hit.value.raw == "1";
      }
      ok := Sql.IsMember(db.t, chat, user);
      var val := "0";
      if ok {
        val := "1";
      }
      cache.TrySet(key, Flag(val));
    }

    method GetMember(chat: Id, user: Id) returns (r: Result<ChatMember>)
      requires Valid()
      modifies cache
      ensures Valid() && OnlyChatsChange(old(cache.entries), cache.entries)
      ensures SameMember(r, chat, user, Sql.GetMember(db.t, chat, user))
    {
      var key := MemberKey(chat, user);
      var hit := cache.Get(key);
      if hit.Some? && hit.value.MemberJson? {
        return Ok(hit.value.member);
      }
      var m := Sql.GetMember(db.t, chat, user);
      if m.Err? {
        return Err(m.error);
      }
      r := Ok(ChatMember(chat, user, m.value, true));
      cache.TrySet(key, MemberJson(r.value));
    }

    method GetDirectChat(u: Id, v: Id) returns (r: Result<Chat>)
      ensures r == Sql.GetDirectChat(db.t, u, v)
    {
      r := Sql.GetDirectChat(db.t, u, v);
    }

    method GetMembers(chat: Id) returns (r: seq<ChatMember>)
      ensures r == Sql.GetMembers(db.t, chat)
    {
      r := Sql.GetMembers(db.t, chat);
    }

    /** Seeds both member keys of every initial member: a cached "0" for the new chat, if any,
        must not survive. The keys name the new chat whatever chat the members name. */
    method CreateWithMembers(chat: Chat, members: seq<ChatMember>) returns (r: Result<()>)
      requires Valid()
      modifies db, cache
      ensures cache.Valid() && OnlyChatsChange(old(cache.entries), cache.entries)
      ensures AllNameChat(chat, members) ==> Valid()
      ensures var w := Sql.CreateWithMembers(old(db.t), chat, members);
              db.t == (if w.Ok? then w.value else old(db.t)) &&
              r == if w.Ok? then Ok(()) else Err(w.error)
    {
      var w := Sql.CreateWithMembers(db.t, chat, members);
      if w.Err? {
        return Err(w.error);
      }
      ghost var before := db.t;
      db.t := w.value;
      ghost var named := AllNameChat(chat, members);
      if named { CreationCoherent(before, chat, members, cache.entries); }
      for i := 0 to |members|
        invariant db.t == w.value && cache.Valid() && OnlyChatsChange(old(cache.entries), cache.entries)
        invariant named ==> CoherentBut(db.t, cache.entries, PendingFlags(chat.id, members, i))
      {
        var m := members[i];
        assert named ==> Sql.Inserted(db.t, m);
        cache.Set(IsMemberKey(chat.id, m.user), Flag("1"));
        cache.Set(MemberKey(chat.id, m.user), MemberJson(m));
        assert forall k :: k in PendingFlags(chat.id, members, i) ==>
          k in PendingFlags(chat.id, members, i + 1) || k == IsMemberKey(chat.id, m.user);
      }
      return Ok(());
    }

    /** Invalidates before it writes. */
    method Update(chat: Chat) returns (r: Result<()>)
      requires Valid()
      modifies db, cache
      ensures Valid() && OnlyChatsChange(old(cache.entries), cache.entries)
      ensures var w := Sql.Update(old(db.t), chat);
              db.t == (if w.Ok? then w.value else old(db.t)) &&
              r == if w.Ok? then Ok(()) else Err(w.error)
    {
      cache.Del(ChatKey(chat.id));
      var w := Sql.Update(db.t, chat);
      if w.Err? {
        return Err(w.error);
      }
      db.t := w.value;
      return Ok(());
    }

    method Delete(id: Id)
      requires Valid()
      modifies db, cache
      ensures Valid() && OnlyChatsChange(old(cache.entries), cache.entries)
      ensures db.t == Sql.Delete(old(db.t), id)
      ensures var members := Sql.GetMembers(old(db.t), id); Dropped(cache.entries, id, members, |members|)
    {
      var members := GetMembers(id);
      DeleteCoherent(db.t, cache.entries, id);
      db.t := Sql.Delete(db.t, id);
      cache.Del(ChatKey(id));
      for i := 0 to |members|
        invariant Valid() && OnlyChatsChange(old(cache.entries), cache.entries)
        invariant db.t == Sql.Delete(old(db.t), id) && Dropped(cache.entries, id, members, i)
      {
        MemberDropped(db.t, cache.entries, id, members, i);
        cache.Del(IsMemberKey(id, members[i].user));
        cache.Del(MemberKey(id, members[i].user));
      }
    }

    /** Overwrites whatever was cached for the member, a "0" included. */
    method AddMember(m: ChatMember) returns (r: Result<()>)
      requires Valid()
      modifies db, cache
      ensures Valid() && OnlyChatsChange(old(cache.entries), cache.entries)
      ensures var w := Sql.AddMember(old(db.t), m);
              db.t == (if w.Ok? then w.value else old(db.t)) &&
              r == if w.Ok? then Ok(()) else Err(w.error)
    {
      var w := Sql.AddMember(db.t, m);
      if w.Err? {
        return Err(w.error);
      }
      AddCoherent(db.t, cache.entries, m);
      db.t := w.value;
      cache.Set(IsMemberKey(m.chat, m.user), Flag("1"));
      cache.Set(MemberKey(m.chat, m.user), MemberJson(m));
      return Ok(());
    }

    method RemoveMember(chat: Id, user: Id) returns (r: Result<()>)
      requires Valid()
      modifies db, cache
      ensures Valid() && OnlyChatsChange(old(cache.entries), cache.entries)
      ensures var w := Sql.RemoveMember(old(db.t), chat, user);
              db.t == (if w.Ok? then w.value else old(db.t)) &&
              r == if w.Ok? then Ok(()) else Err(w.error)
    {
      var w := Sql.RemoveMember(db.t, chat, user);
      if w.Err? {
        return Err(w.error);
      }
      RemoveCoherent(db.t, cache.entries, chat, user);
      db.t := w.value;
      cache.Del(IsMemberKey(chat, user));
      cache.Del(MemberKey(chat, user));
      return Ok(());
    }

    method UpdateMemberRole(chat: Id, user: Id, role: Role) returns (r: Result<()>)
      requires Valid()
      modifies db, cache
      ensures Valid() && OnlyChatsChange(old(cache.entries), cache.entries)
      ensures var w := Sql.UpdateMemberRole(old(db.t), chat, user, role);
              db.t == (if w.Ok? then w.value else old(db.t)) &&
              r == if w.Ok? then Ok(()) else Err(w.error)
    {
      var w := Sql.UpdateMemberRole(db.t, chat, user, role);
      if w.Err? {
        return Err(w.error);
      }
      RoleCoherent(db.t, cache.entries, chat, user, role);
      db.t := w.value;
      cache.Del(MemberKey(chat, user));
      return Ok(());
    }
  }

  // ---- Seeding a new chat ----

  /** Coherent, except that a negative IsMember answer of old may still stand under these keys. */
  ghost predicate CoherentBut(t: Sql.Tables, entries: map<Key, CacheValue>, pending: set<Key>)
  {
    forall k :: k in entries && k !in pending ==> True(t, k, entries[k])
  }

  ghost function PendingFlags(chat: Id, members: seq<ChatMember>, i: nat): set<Key>
  {
    set j | i <= j < |members| :: IsMemberKey(chat, members[j].user)
  }

  /** As the members of both use cases do. */
  predicate AllNameChat(chat: Chat, members: seq<ChatMember>)
  {
    forall i :: 0 <= i < |members| ==> members[i].chat == chat.id
  }

  lemma CreationCoherent(t: Sql.Tables, chat: Chat, members: seq<ChatMember>, entries: map<Key, CacheValue>)
    requires Coherent(t, entries) && Sql.CreateWithMembers(t, chat, members).Ok?
    requires AllNameChat(chat, members)
    ensures var s := Sql.CreateWithMembers(t, chat, members).value;
            CoherentBut(s, entries, PendingFlags(chat.id, members, 0)) &&
            forall i :: 0 <= i < |members| ==> Sql.Inserted(s, members[i])
  {
    var t0 := t.(chats := t.chats[chat.id := chat]);
    var s := Sql.CreateWithMembers(t, chat, members).value;
    Sql.InsertMembersAdds(t0, members);
    forall row | row in s.members && row !in t.members
      ensures IsMemberKey(row.0, row.1) in PendingFlags(chat.id, members, 0)
    {
      var i :| 0 <= i < |members| && row == (members[i].chat, members[i].user);
      assert IsMemberKey(chat.id, members[i].user) in PendingFlags(chat.id, members, 0);
    }
    forall k | k in entries && k !in PendingFlags(chat.id, members, 0)
      ensures True(s, k, entries[k])
    {
      assert True(t, k, entries[k]);
      assert k.IsMemberKey? ==> ((k.chat, k.user) in s.members ==> (k.chat, k.user) in t.members);
    }
  }
}
