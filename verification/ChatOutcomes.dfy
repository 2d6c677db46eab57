/** What each chat use case amounts to when no call fails: exactly when it succeeds, what it then
    answers and leaves, in terms of rows, and why it refuses. A refusal leaves all as it was. */
module ChatOutcomes {
  import opened Wrappers
  import opened Domain
  import opened ChatUseCases
  import opened Ownership
  import opened Uuids
  import Sql = ChatTables
  import GroupCreation
  import Validation

  /** The answer, and the tables in the end. */
  function Called(t: Sql.Tables, op: Op): (Result<Reply>, Sql.Tables)
  {
    var out := Exec(t, NoFaults(), op);
    (out.result, out.Final(t))
  }

  predicate In(t: Sql.Tables, chat: Id, user: Id) { (chat, user) in t.members }

  predicate Is(t: Sql.Tables, chat: Id, user: Id, role: Role)
  {
    In(t, chat, user) && t.members[(chat, user)].role == role
  }

  predicate Manages(t: Sql.Tables, chat: Id, user: Id)
  {
    Is(t, chat, user, Owner) || Is(t, chat, user, Admin)
  }

  lemma MembersAreUsers(t: Sql.Tables, chat: Id, user: Id)
    requires KeysHold(t)
    ensures In(t, chat, user) ==> user in t.users && chat in t.chats
  {
    if In(t, chat, user) { assert (chat, user).0 in t.chats && (chat, user).1 in t.users; }
  }

  /** Why a group operation is refused to somebody at the door. */
  ghost predicate TurnedAway(t: Sql.Tables, chat: Id, caller: Id, e: Error)
  {
    if !(chat in t.chats && chat !in t.deleted) then e == ErrChatNotFound
    else if t.chats[chat].kind == Direct then e == ErrForbidden
    else !In(t, chat, caller) && e == ErrNotChatMember
  }

  ghost predicate Open(t: Sql.Tables, chat: Id, caller: Id)
  {
    chat in t.chats && chat !in t.deleted && t.chats[chat].kind == Group && In(t, chat, caller)
  }

  lemma DoorIsExact(t: Sql.Tables, chat: Id, caller: Id)
    requires KeysHold(t)
    ensures var r := GroupCaller(t, NoFaults(), chat, caller);
            if Open(t, chat, caller) then r == Ok((t.chats[chat], t.members[(chat, caller)]))
            else r.Err? && TurnedAway(t, chat, caller, r.error)
  {
    MembersAreUsers(t, chat, caller);
  }

  // ---- Direct chats ----

  /** The new chat and its two rows. */
  function WithDirect(t: Sql.Tables, caller: Id, target: Id, id: Id, now: int): Sql.Tables
  {
    t.(chats := t.chats[id := Chat(id, Direct, "", "", "", caller, now, now)],
       members := t.members[(id, caller) := Membership(Member, now)][(id, target) := Membership(Member, now)])
  }

  lemma DirectInserted(t: Sql.Tables, caller: Id, target: Id, id: Id, now: int)
    requires KeysHold(t) && caller != target && target in t.users
    ensures Sql.CreateWithMembers(t, NewDirect(caller, id, now), DirectMembers(caller, target, id, now)) ==
              if caller in t.users && id !in t.chats then Ok(WithDirect(t, caller, target, id, now))
              else Err(ErrStorage)
  {
    var ms := DirectMembers(caller, target, id, now);
    MembersAreUsers(t, id, caller);
    MembersAreUsers(t, id, target);
    if caller in t.users && id !in t.chats {
      var t0 := t.(chats := t.chats[id := NewDirect(caller, id, now)]);
      var t1 := t0.(members := t0.members[(id, caller) := Membership(Member, now)]);
      assert ms[1..] == [ms[1]] && ms[1..][1..] == [];
      assert Sql.InsertMember(t0, ms[0]) == Ok(t1);
      assert Sql.InsertMembers(t1, [ms[1]]) == Ok(WithDirect(t, caller, target, id, now));
    }
  }

  /** A direct chat that is there is answered; one that is not is made, of two plain members, when
      the other is a user. */
  lemma CreateDirectOutcome(t: Sql.Tables, caller: Id, target: Id, newId: Id, now: int)
    requires KeysHold(t)
    ensures var (r, s) := Called(t, CreateDirectOp(caller, target, newId, now));
            if target == NIL then (r, s) == (Err(ErrValidation), t)
            else if target == caller then (r, s) == (Err(ErrForbidden), t)
            else if target !in t.users then (r, s) == (Err(ErrUserNotFound), t)
            else if exists id :: Sql.DirectBetween(t, id, caller, target) then
              s == t && exists id :: Sql.DirectBetween(t, id, caller, target) && r == Ok(ChatReply(t.chats[id], false))
            else if caller in t.users && newId !in t.chats then
              s == WithDirect(t, caller, target, newId, now) && r == Ok(ChatReply(s.chats[newId], true))
            else (r, s) == (Err(ErrStorage), t)
  {
    if target != caller && target in t.users { DirectInserted(t, caller, target, newId, now); }
  }

  // ---- Groups ----

  /** A group is made, as described, with the caller as owner and everybody listed as plain member,
      when the input is valid, all are users and the id is new. */
  lemma CreateGroupOutcome(t: Sql.Tables, caller: Id, name: string, description: string, ids: seq<Id>,
                           newId: Id, now: int)
    requires KeysHold(t)
    ensures var (r, s) := Called(t, CreateGroupOp(caller, name, description, ids, newId, now));
            if !(1 <= |name| <= 100 && |description| <= 500) then (r, s) == (Err(ErrValidation), t)
            else if exists u :: u in ids && u != caller && u !in t.users then (r, s) == (Err(ErrUserNotFound), t)
            else if caller !in t.users || newId in t.chats then (r, s) == (Err(ErrStorage), t)
            else
              && r == Ok(ChatReply(Chat(newId, Group, name, "", description, caller, now, now), true))
              && s == t.(chats := t.chats[newId := r.value.chat], members := s.members)
              && (forall k :: k in s.members <==> k in t.members || (k.0 == newId && (k.1 == caller || k.1 in ids)))
              && (forall k :: k in s.members ==>
                   s.members[k] == if k in t.members then t.members[k]
                                   else Membership(if k.1 == caller then Owner else Member, now))
  {
    GroupCreation.CheckUsersAll(t, 0, caller, ids);
    GroupCreation.CreateGroupSucceedsIff(t, caller, name, description, ids, newId, now);
    var out := Exec(t, NoFaults(), CreateGroupOp(caller, name, description, ids, newId, now));
    if out.result.Ok? {
      var s := out.Final(t);
      GroupCreation.CreatedGroupMembers(t, caller, name, description, ids, newId, now);
      var chat, ms := NewGroup(caller, name, description, newId, now), GroupMembers(caller, ids, newId, now);
      Sql.InsertMembersAdds(t.(chats := t.chats[newId := chat]), ms);
      GroupRows(t, s, newId);
    } else if GroupInputValid(name, description) && CheckUsers(t, NoFaults(), 0, caller, ids).Ok? {
      GroupRefused(t, caller, name, description, ids, newId, now);
    }
  }

  lemma GroupRows(t: Sql.Tables, s: Sql.Tables, newId: Id)
    requires KeysHold(t) && newId !in t.chats && OthersSame(t, s, newId)
    ensures forall k :: k in s.members ==> k in t.members || k.0 == newId
    ensures forall k :: k in t.members ==> k in s.members && k.0 != newId && s.members[k] == t.members[k]
  {
    forall k | k in s.members && k.0 != newId
      ensures k in t.members
    {
      assert SameChat(t, s, k.0) && k == (k.0, k.1);
    }
    forall k | k in t.members
      ensures k in s.members && k.0 != newId && s.members[k] == t.members[k]
    {
      assert SameChat(t, s, k.0) && k == (k.0, k.1);
    }
  }

  lemma GroupRefused(t: Sql.Tables, caller: Id, name: string, description: string, ids: seq<Id>, newId: Id, now: int)
    requires GroupInputValid(name, description) && CheckUsers(t, NoFaults(), 0, caller, ids).Ok?
    requires CreateGroup(t, NoFaults(), caller, name, description, ids, newId, now).result.Err?
    ensures CreateGroup(t, NoFaults(), caller, name, description, ids, newId, now).result == Err(ErrStorage)
  {
    var chat, ms := NewGroup(caller, name, description, newId, now), GroupMembers(caller, ids, newId, now);
    InsertErrs(t.(chats := t.chats[newId := chat]), ms);
  }

  lemma {:induction false} InsertErrs(t: Sql.Tables, ms: seq<ChatMember>)
    ensures Sql.InsertMembers(t, ms).Err? ==> Sql.InsertMembers(t, ms).error == ErrStorage
    decreases |ms|
  {
    if ms != [] && Sql.InsertMember(t, ms[0]).Ok? { InsertErrs(Sql.InsertMember(t, ms[0]).value, ms[1..]); }
  }

  // ---- Reading ----

  lemma GetChatOutcome(t: Sql.Tables, chat: Id, caller: Id)
    ensures var (r, s) := Called(t, GetChatOp(chat, caller));
            && s == t
            && r == if !In(t, chat, caller) then Err(ErrNotChatMember)
                    else if chat in t.chats && chat !in t.deleted then Ok(ChatReply(t.chats[chat], false))
                    else Err(ErrChatNotFound)
  {
  }

  /** Members are shown everybody in the chat, once each, in the order they joined. */
  lemma ListMembersOutcome(t: Sql.Tables, chat: Id, caller: Id)
    requires KeysHold(t)
    ensures var (r, s) := Called(t, ListMembersOp(chat, caller));
            && s == t
            && if !In(t, chat, caller) then r == Err(ErrNotChatMember) else
               && r.Ok? && r.value.MembersReply?
               && var ms := r.value.members;
               && (forall u :: In(t, chat, u) <==> exists i :: 0 <= i < |ms| && ms[i].user == u)
               && (forall i :: 0 <= i < |ms| ==>
                    In(t, chat, ms[i].user) &&
                    ms[i] == ChatMember(chat, ms[i].user, t.members[(chat, ms[i].user)], true))
               && (forall i, j :: 0 <= i < j < |ms| ==>
                    ms[i].membership.joinedAt < ms[j].membership.joinedAt ||
                    (ms[i].membership.joinedAt == ms[j].membership.joinedAt && ms[i].user < ms[j].user))
  {
    MembersListed(t, chat);
    forall u: Id
      ensures In(t, chat, u) ==> u in t.users
    {
      MembersAreUsers(t, chat, u);
    }
  }

  // ---- Changing a group ----

  /** The chat with the given fields set. */
  function Set(c: Chat, name: Option<string>, description: Option<string>, avatarUrl: Option<string>, now: int): Chat
  {
    Chat(c.id, c.kind, if name.None? then c.name else name.value,
         if avatarUrl.None? then c.avatarUrl else avatarUrl.value,
         if description.None? then c.description else description.value, c.createdBy, c.createdAt, now)
  }

  /** Lengths and the form of the address, where given. */
  predicate ValidUpdate(name: Option<string>, description: Option<string>, avatarUrl: Option<string>)
  {
    && (name.None? || 1 <= |name.value| <= 100)
    && (description.None? || |description.value| <= 500)
    && (avatarUrl.None? || Validation.IsUrl(avatarUrl.value))
  }

  /** An owner or admin sets the given fields of a live group. An update that changes nothing,
      the time included, is not found by MySQL. */
  lemma UpdateGroupOutcome(t: Sql.Tables, chat: Id, caller: Id, name: Option<string>, description: Option<string>,
                           avatarUrl: Option<string>, now: int)
    requires KeysHold(t) && (LiveGroup(t, chat) ==> t.chats[chat].name != "")
    ensures var (r, s) := Called(t, UpdateGroupOp(chat, caller, name, description, avatarUrl, now));
            if !ValidUpdate(name, description, avatarUrl) then (r, s) == (Err(ErrValidation), t)
            else if !Open(t, chat, caller) then r.Err? && TurnedAway(t, chat, caller, r.error) && s == t
            else if !Manages(t, chat, caller) then (r, s) == (Err(ErrInsufficientRights), t)
            else
              var c := Set(t.chats[chat], name, description, avatarUrl, now);
              if t.dialect.MySQL? && c == t.chats[chat] then (r, s) == (Err(ErrChatNotFound), t)
              else (r, s) == (Ok(ChatReply(c, false)), t.(chats := t.chats[chat := c]))
  {
    DoorIsExact(t, chat, caller);
  }

  /** An owner or admin of a live group adds a user who is not in it, as a plain member. */
  lemma AddMemberOutcome(t: Sql.Tables, chat: Id, caller: Id, user: Id, now: int)
    requires KeysHold(t)
    ensures var (r, s) := Called(t, AddMemberOp(chat, caller, user, now));
            if user == NIL then (r, s) == (Err(ErrValidation), t)
            else if !Open(t, chat, caller) then r.Err? && TurnedAway(t, chat, caller, r.error) && s == t
            else if !Manages(t, chat, caller) then (r, s) == (Err(ErrInsufficientRights), t)
            else if user !in t.users then (r, s) == (Err(ErrUserNotFound), t)
            else if In(t, chat, user) then (r, s) == (Err(ErrAlreadyChatMember), t)
            else (r, s) == (Ok(Done), t.(members := t.members[(chat, user) := Membership(Member, now)]))
  {
    DoorIsExact(t, chat, caller);
  }

  /** An owner removes plain members and admins, an admin plain members, and nobody an owner. */
  lemma RemoveMemberOutcome(t: Sql.Tables, chat: Id, caller: Id, user: Id)
    requires KeysHold(t)
    ensures var (r, s) := Called(t, RemoveMemberOp(chat, caller, user));
            if !Open(t, chat, caller) then r.Err? && TurnedAway(t, chat, caller, r.error) && s == t
            else if !Manages(t, chat, caller) then (r, s) == (Err(ErrInsufficientRights), t)
            else if !In(t, chat, user) then (r, s) == (Err(ErrNotChatMember), t)
            else if Is(t, chat, user, Owner) then (r, s) == (Err(ErrCannotRemoveOwner), t)
            else if Is(t, chat, user, Admin) && !Is(t, chat, caller, Owner) then
              (r, s) == (Err(ErrInsufficientRights), t)
            else (r, s) == (Ok(Done), t.(members := t.members - {(chat, user)}))
  {
    DoorIsExact(t, chat, caller);
    MembersAreUsers(t, chat, user);
  }

  /** An owner makes another member admin or plain member; the join time stays. MySQL does not
      find a member who already is that. */
  lemma ChangeRoleOutcome(t: Sql.Tables, chat: Id, caller: Id, user: Id, role: string)
    requires KeysHold(t)
    ensures var (r, s) := Called(t, ChangeMemberRoleOp(chat, caller, user, role));
            if user == NIL || (role != "admin" && role != "member") then (r, s) == (Err(ErrValidation), t)
            else if user == caller then (r, s) == (Err(ErrForbidden), t)
            else if !In(t, chat, caller) then (r, s) == (Err(ErrNotChatMember), t)
            else if !Is(t, chat, caller, Owner) then (r, s) == (Err(ErrInsufficientRights), t)
            else if !In(t, chat, user) then (r, s) == (Err(ErrNotChatMember), t)
            else
              var new' := if role == "admin" then Admin else Member;
              if t.dialect.MySQL? && Is(t, chat, user, new') then (r, s) == (Err(ErrNotChatMember), t)
              else (r, s) == (Ok(Done), t.(members :=
                t.members[(chat, user) := Membership(new', t.members[(chat, user)].joinedAt)]))
  {
    MembersAreUsers(t, chat, caller);
    MembersAreUsers(t, chat, user);
  }

  // ---- Leaving ----

  /** Somebody who is not the owner just goes. */
  lemma PlainLeaveOutcome(t: Sql.Tables, chat: Id, caller: Id)
    requires KeysHold(t) && !Is(t, chat, caller, Owner)
    ensures var (r, s) := Called(t, LeaveChatOp(chat, caller));
            if !Open(t, chat, caller) then r.Err? && TurnedAway(t, chat, caller, r.error) && s == t
            else (r, s) == (Ok(Done), t.(members := t.members - {(chat, caller)}))
  {
    DoorIsExact(t, chat, caller);
  }

  /** The owner's heir: of the admins other than the owner the first to have joined, or, if there
      are none, of all others. */
  ghost predicate Heir(t: Sql.Tables, chat: Id, leaver: Id, heir: Id)
  {
    && heir != leaver && In(t, chat, heir)
    && (forall u :: u != leaver && u != heir && Is(t, chat, u, Admin) ==>
          Is(t, chat, heir, Admin) && Precedes(t, chat, heir, u))
    && (forall u :: u != leaver && u != heir && In(t, chat, u) ==>
          Is(t, chat, heir, Admin) || Precedes(t, chat, heir, u))
  }

  predicate Precedes(t: Sql.Tables, chat: Id, a: Id, b: Id)
    requires In(t, chat, a) && In(t, chat, b)
  {
    var x, y := t.members[(chat, a)].joinedAt, t.members[(chat, b)].joinedAt;
    x < y || (x == y && a < b)
  }

  /** What the scan finds is the heir. */
  lemma SuccessorIsHeir(t: Sql.Tables, chat: Id, leaver: Id, i: int)
    requires KeysHold(t)
    requires var ms := Sql.GetMembers(t, chat); Successor(ms, leaver, i) && Other(ms, i, leaver)
    ensures Heir(t, chat, leaver, Sql.GetMembers(t, chat)[i].user)
  {
    var ms := Sql.GetMembers(t, chat);
    var heir := ms[i].user;
    MembersListed(t, chat);
    forall u: Id | u != leaver && u != heir && In(t, chat, u)
      ensures Is(t, chat, u, Admin) ==> Is(t, chat, heir, Admin) && Precedes(t, chat, heir, u)
      ensures Is(t, chat, heir, Admin) || Precedes(t, chat, heir, u)
    {
      MembersAreUsers(t, chat, u);
      var k :| 0 <= k < |ms| && ms[k].user == u;
      assert Other(ms, k, leaver);
      assert OtherAdmin(ms, k, leaver) ==> HasOtherAdmin(ms, leaver);
      assert OtherAdmin(ms, i, leaver) ==> HasOtherAdmin(ms, leaver);
    }
  }

  /** An owner goes, and the heir becomes owner, unless the heir is one and MySQL finds nothing to
      change; an owner who is alone takes the group along. */
  lemma OwnerLeaveOutcome(t: Sql.Tables, chat: Id, caller: Id) returns (heir: Id)
    requires KeysHold(t) && Open(t, chat, caller) && Is(t, chat, caller, Owner)
    ensures var (r, s) := Called(t, LeaveChatOp(chat, caller));
            if forall u :: In(t, chat, u) ==> u == caller then
              (r, s) == (Ok(Done), t.(deleted := t.deleted + {chat}))
            else
              Heir(t, chat, caller, heir) &&
              if t.dialect.MySQL? && Is(t, chat, heir, Owner) then (r, s) == (Err(ErrNotChatMember), t)
              else (r, s) == (Ok(Done), t.(members :=
                t.members[(chat, heir) := Membership(Owner, t.members[(chat, heir)].joinedAt)] - {(chat, caller)}))
  {
    DoorIsExact(t, chat, caller);
    var ms := Sql.GetMembers(t, chat);
    var i := NextOwnerIsSuccessor(ms, caller);
    heir := caller;
    if HasOther(ms, caller) {
      heir := ms[i].user;
      SuccessorIsHeir(t, chat, caller, i);
    } else {
      AloneInList(t, chat, caller);
    }
  }
}
