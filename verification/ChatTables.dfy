/** The chat repository as statements on tables: what each SQL statement reads, writes
    and reports. */
module ChatTables {
  import opened Domain
  import Ordering

  /** How the driver counts affected rows of an UPDATE: those matched (Postgres),
      or only those changed (MySQL without clientFoundRows). */
  datatype Dialect = Postgres | MySQL

  datatype Tables = Tables(
    dialect: Dialect,
    users: set<Id>,
    chats: map<Id, Chat>,
    deleted: set<Id>,                          // chats with deleted_at set
    members: map<(Id, Id), Membership>)        // primary key (chat_id, user_id)

  predicate Live(t: Tables, chat: Id)
  {
    chat in t.chats && chat !in t.deleted
  }

  // ---- Reads ----

  function GetByID(t: Tables, id: Id): Result<Chat>
  {
    if Live(t, id) then Ok(t.chats[id]) else Err(ErrChatNotFound)
  }

  predicate IsMember(t: Tables, chat: Id, user: Id)
  {
    (chat, user) in t.members
  }

  /** The join with live users drops members whose user is gone. */
  function GetMember(t: Tables, chat: Id, user: Id): Result<Membership>
  {
    if (chat, user) in t.members && user in t.users
      then Ok(t.members[(chat, user)])
      else Err(ErrNotChatMember)
  }

  /** Sort keys of the members list: (joined_at, user_id). */
  function MemberKeys(t: Tables, chat: Id): set<(int, Id)>
  {
    set k | k in t.members.Keys && k.0 == chat && k.1 in t.users :: (t.members[k].joinedAt, k.1)
  }

  predicate JoinedBefore(a: (int, Id), b: (int, Id))
  {
    a.0 < b.0 || (a.0 == b.0 && a.1 < b.1)
  }

  lemma JoinOrderTotal()
    ensures Ordering.StrictTotal(JoinedBefore)
  {
  }

  function GetMembers(t: Tables, chat: Id): (r: seq<ChatMember>)
    ensures forall i :: 0 <= i < |r| ==>
      r[i].chat == chat && r[i].user in t.users && (chat, r[i].user) in t.members &&
      r[i].membership == t.members[(chat, r[i].user)]
  {
    JoinOrderTotal();
    var keys := Ordering.Listed(JoinedBefore, MemberKeys(t, chat));
    assert forall i :: 0 <= i < |keys| ==> keys[i] in keys;
    seq(|keys|, i requires 0 <= i < |keys| =>
      assert keys[i] in MemberKeys(t, chat);
      ChatMember(chat, keys[i].1, t.members[(chat, keys[i].1)], true))
  }

  predicate DirectBetween(t: Tables, id: Id, u: Id, v: Id)
  {
    Live(t, id) && t.chats[id].kind.Direct? && IsMember(t, id, u) && IsMember(t, id, v)
  }

  predicate Below(a: Id, b: Id) { a < b }

  /** LIMIT 1 without ORDER BY: any matching row will do; this takes the smallest id. */
  function GetDirectChat(t: Tables, u: Id, v: Id): (r: Result<Chat>)
    ensures r.Ok? ==> exists id :: DirectBetween(t, id, u, v) && r.value == t.chats[id]
    ensures r.Err? ==> r.error == ErrChatNotFound && forall id :: !DirectBetween(t, id, u, v)
  {
    var found := set id | id in t.chats.Keys && DirectBetween(t, id, u, v);
    assert forall id :: DirectBetween(t, id, u, v) ==> id in found;
    if found == {} then Err(ErrChatNotFound)
    else Ok(t.chats[Ordering.First(Below, found)])
  }

  // ---- Writes: the new tables, or an error that leaves them as they were ----

  /** CHECK constraints: a group has a name (the empty name is stored as NULL), a direct chat has none. */
  predicate NameAllowed(c: Chat)
  {
    if c.kind.Group? then c.name != "" else c.name == ""
  }

  /** One INSERT INTO chat_members: foreign keys to chats and users, primary key on the pair. */
  function InsertMember(t: Tables, m: ChatMember): Result<Tables>
  {
    if m.chat !in t.chats || m.user !in t.users || (m.chat, m.user) in t.members
      then Err(ErrStorage)
      else Ok(t.(members := t.members[(m.chat, m.user) := m.membership]))
  }

  function InsertMembers(t: Tables, ms: seq<ChatMember>): Result<Tables>
    decreases |ms|
  {
    if ms == [] then Ok(t) else
    var t' :- InsertMember(t, ms[0]);
    InsertMembers(t', ms[1..])
  }

  /** One transaction: the chat and all its initial members, or nothing. */
  function CreateWithMembers(t: Tables, c: Chat, ms: seq<ChatMember>): Result<Tables>
  {
    if c.id in t.chats || c.createdBy !in t.users || !NameAllowed(c)
      then Err(ErrStorage)
      else InsertMembers(t.(chats := t.chats[c.id := c]), ms)
  }

  function Update(t: Tables, c: Chat): Result<Tables>
  {
    if !Live(t, c.id) then Err(ErrChatNotFound) else
    var row := t.chats[c.id].(name := c.name, avatarUrl := c.avatarUrl,
                              description := c.description, updatedAt := c.updatedAt);
    if !NameAllowed(row) then Err(ErrStorage)
    else if t.dialect.MySQL? && row == t.chats[c.id] then Err(ErrChatNotFound)
    else Ok(t.(chats := t.chats[c.id := row]))
  }

  /** Soft delete; the number of rows is not looked at. */
  function Delete(t: Tables, id: Id): Tables
  {
    if Live(t, id) then t.(deleted := t.deleted + {id}) else t
  }

  /** INSERT ... ON CONFLICT DO NOTHING in Postgres. MySQL's INSERT IGNORE also swallows a
      violated foreign key, which then reads as "already a member". */
  function AddMember(t: Tables, m: ChatMember): Result<Tables>
  {
    if IsMember(t, m.chat, m.user) then Err(ErrAlreadyChatMember) else
    var r := InsertMember(t, m);
    if r.Err? && t.dialect.MySQL? then Err(ErrAlreadyChatMember) else r
  }

  function RemoveMember(t: Tables, chat: Id, user: Id): Result<Tables>
  {
    if IsMember(t, chat, user) then Ok(t.(members := t.members - {(chat, user)})) else Err(ErrNotChatMember)
  }

  function UpdateMemberRole(t: Tables, chat: Id, user: Id, role: Role): Result<Tables>
  {
    if !IsMember(t, chat, user) then Err(ErrNotChatMember) else
    var row := t.members[(chat, user)];
    if t.dialect.MySQL? && row.role == role then Err(ErrNotChatMember)
    else Ok(t.(members := t.members[(chat, user) := row.(role := role)]))
  }

  /** The dialects part ways on a role update exactly when it would change nothing. */
  lemma RoleUpdateDialects(t: Tables, chat: Id, user: Id, role: Role)
    ensures (UpdateMemberRole(t.(dialect := MySQL), chat, user, role).Ok?
         <==> UpdateMemberRole(t.(dialect := Postgres), chat, user, role).Ok?)
       <==> !(IsMember(t, chat, user) && t.members[(chat, user)].role == role)
  {
  }

  /** The dialects part ways on an addition exactly when the chat or the user is not there, which
      MySQL takes for "already a member". */
  lemma AddMemberDialects(t: Tables, m: ChatMember)
    ensures var my, pg := AddMember(t.(dialect := MySQL), m), AddMember(t.(dialect := Postgres), m);
            && (my.Ok? <==> pg.Ok?) && (my.Err? ==> my.error == ErrAlreadyChatMember)
            && (pg.Err? ==> pg.error == if (m.chat, m.user) in t.members then ErrAlreadyChatMember else ErrStorage)
            && (pg.Ok? <==> (m.chat, m.user) !in t.members && m.chat in t.chats && m.user in t.users)
  {
  }

  predicate Inserted(t: Tables, m: ChatMember)
  {
    m.user in t.users && (m.chat, m.user) in t.members && t.members[(m.chat, m.user)] == m.membership
  }

  /** What a successful insertion of a list of members means: the rows are new, belong to
      known chats and users, are all distinct, and are exactly what was added. */
  lemma {:induction false} InsertMembersAdds(t: Tables, ms: seq<ChatMember>)
    requires InsertMembers(t, ms).Ok?
    ensures var t' := InsertMembers(t, ms).value;
            && t' == t.(members := t'.members)
            && t.members.Keys !! (set i | 0 <= i < |ms| :: (ms[i].chat, ms[i].user))
            && (forall k :: k in t.members ==> k in t'.members && t'.members[k] == t.members[k])
            && (forall i :: 0 <= i < |ms| ==> Inserted(t', ms[i]))
            && (forall k :: k in t'.members && k !in t.members ==>
                 exists i :: 0 <= i < |ms| && k == (ms[i].chat, ms[i].user))
    decreases |ms|
  {
    if ms != [] {
      var t1 := InsertMember(t, ms[0]).value;
      var t', rest := InsertMembers(t1, ms[1..]).value, ms[1..];
      InsertMembersAdds(t1, rest);
      forall i | 0 <= i < |ms|
        ensures (ms[i].chat, ms[i].user) !in t.members && Inserted(t', ms[i])
      {
        if i > 0 {
          assert ms[i] == rest[i - 1];
          assert (rest[i - 1].chat, rest[i - 1].user) in (set j | 0 <= j < |rest| :: (rest[j].chat, rest[j].user));
        }
      }
      forall k | k in t'.members && k !in t.members
        ensures exists i :: 0 <= i < |ms| && k == (ms[i].chat, ms[i].user)
      {
        if k == (ms[0].chat, ms[0].user) {
        } else {
          var i :| 0 <= i < |rest| && k == (rest[i].chat, rest[i].user);
          assert ms[i + 1] == rest[i];
        }
      }
    }
  }
}
