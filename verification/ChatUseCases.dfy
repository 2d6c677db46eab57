/** The chat use cases over the repository, as functions of the tables. Any repository call
    may fail; what the tables hold after each write is kept in a trail. */
module ChatUseCases {
  import opened Wrappers
  import opened Domain
  import opened Uuids
  import Sql = ChatTables
  import Validation

  /** What happens to one repository call. A write that is not acknowledged took effect,
      but its caller sees an error. */
  datatype Fault = Works | Fails | Unacknowledged

  /** The fault of the i-th repository call of a use case. */
  type Faults = nat -> Fault

  function NoFaults(): Faults { (_: nat) => Works }

  datatype Outcome<R> = Outcome(result: Result<R>, trail: seq<Sql.Tables>)
  {
    /** The tables in the end. */
    function Final(start: Sql.Tables): Sql.Tables
    {
      if trail == [] then start else trail[|trail| - 1]
    }
  }

  function Read<R>(f: Fault, r: Result<R>): Result<R>
  {
    if f.Works? then r else Err(ErrStorage)
  }

  /** The tables after a write, and what its caller is told. */
  function Write(f: Fault, t: Sql.Tables, w: Result<Sql.Tables>): (Result<()>, Sql.Tables)
  {
    match f
    case Works => if w.Ok? then (Ok(()), w.value) else (Err(w.error), t)
    case Fails => (Err(ErrStorage), t)
    case Unacknowledged => (Err(ErrStorage), if w.Ok? then w.value else t)
  }

  /** A use case that ends with one write, and answers `reply` if it succeeds. */
  function WriteAndReply(f: Fault, t: Sql.Tables, w: Result<Sql.Tables>, reply: Reply): Outcome<Reply>
  {
    var (r, t') := Write(f, t, w);
    Outcome(if r.Ok? then Ok(reply) else Err(r.error), [t'])
  }

  datatype Reply =
    | Done
    | ChatReply(chat: Chat, created: bool)
    | MembersReply(members: seq<ChatMember>)

  function GetUser(t: Sql.Tables, id: Id): Result<()>
  {
    if id in t.users then Ok(()) else Err(ErrUserNotFound)
  }

  // ---- Direct chats ----

  function NewDirect(caller: Id, id: Id, now: int): Chat
  {
    Chat(id, Direct, "", "", "", caller, now, now)
  }

  function DirectMembers(caller: Id, target: Id, id: Id, now: int): seq<ChatMember>
  {
    [ChatMember(id, caller, Membership(Member, now), false),
     ChatMember(id, target, Membership(Member, now), false)]
  }

  function CreateDirect(t: Sql.Tables, f: Faults, caller: Id, target: Id, newId: Id, now: int): Outcome<Reply>
  {
    if target == NIL then Outcome(Err(ErrValidation), [])
    else if target == caller then Outcome(Err(ErrForbidden), [])
    else match Read(f(0), GetUser(t, target))
    case Err(e) => Outcome(Err(e), [])
    case Ok(_) =>
      match Read(f(1), Sql.GetDirectChat(t, caller, target))
      case Ok(existing) => Outcome(Ok(ChatReply(existing, false)), [])
      case Err(e) =>
        if e != ErrChatNotFound then Outcome(Err(e), []) else
        var chat := NewDirect(caller, newId, now);
        WriteAndReply(f(2), t, Sql.CreateWithMembers(t, chat, DirectMembers(caller, target, newId, now)),
                      ChatReply(chat, true))
  }

  // ---- Groups ----

  predicate GroupInputValid(name: string, description: string)
  {
    1 <= |name| <= 100 && |description| <= 500
  }

  /** Every listed user but the caller must exist; returns how many calls that took. */
  function CheckUsers(t: Sql.Tables, f: Faults, calls: nat, caller: Id, ids: seq<Id>): Result<nat>
    decreases |ids|
  {
    if ids == [] then Ok(calls)
    else if ids[0] == caller then CheckUsers(t, f, calls, caller, ids[1..])
    else
      var _ :- Read(f(calls), GetUser(t, ids[0]));
      CheckUsers(t, f, calls + 1, caller, ids[1..])
  }

  /** The listed ids not seen before, each once, in order of first appearance. */
  function Fresh(ids: seq<Id>, seen: set<Id>): seq<Id>
    decreases |ids|
  {
    if ids == [] then []
    else if ids[0] in seen then Fresh(ids[1..], seen)
    else [ids[0]] + Fresh(ids[1..], seen + {ids[0]})
  }

  function PlainMembers(id: Id, users: seq<Id>, now: int): (ms: seq<ChatMember>)
    ensures |ms| == |users|
  {
    seq(|users|, i requires 0 <= i < |users| => ChatMember(id, users[i], Membership(Member, now), false))
  }

  function GroupMembers(caller: Id, ids: seq<Id>, id: Id, now: int): seq<ChatMember>
  {
    [ChatMember(id, caller, Membership(Owner, now), false)] + PlainMembers(id, Fresh(ids, {caller}), now)
  }

  function NewGroup(caller: Id, name: string, description: string, id: Id, now: int): Chat
  {
    Chat(id, Group, name, "", description, caller, now, now)
  }

  function CreateGroup(t: Sql.Tables, f: Faults, caller: Id, name: string, description: string,
                       ids: seq<Id>, newId: Id, now: int): Outcome<Reply>
  {
    if !GroupInputValid(name, description) then Outcome(Err(ErrValidation), [])
    else match CheckUsers(t, f, 0, caller, ids)
    case Err(e) => Outcome(Err(e), [])
    case Ok(calls) =>
      var chat := NewGroup(caller, name, description, newId, now);
      WriteAndReply(f(calls), t, Sql.CreateWithMembers(t, chat, GroupMembers(caller, ids, newId, now)),
                    ChatReply(chat, true))
  }

  function AssertMember(f: Fault, t: Sql.Tables, chat: Id, user: Id): Result<()>
  {
    var ok :- Read(f, Ok(Sql.IsMember(t, chat, user)));
    if ok then Ok(()) else Err(ErrNotChatMember)
  }

  function GetChat(t: Sql.Tables, f: Faults, chat: Id, caller: Id): Result<Chat>
  {
    var _ :- AssertMember(f(0), t, chat, caller);
    Read(f(1), Sql.GetByID(t, chat))
  }

  function ListMembers(t: Sql.Tables, f: Faults, chat: Id, caller: Id): Result<seq<ChatMember>>
  {
    var _ :- AssertMember(f(0), t, chat, caller);
    Read(f(1), Ok(Sql.GetMembers(t, chat)))
  }

  /** The opening of every group operation: a live group chat, and the caller's membership. */
  function GroupCaller(t: Sql.Tables, f: Faults, chat: Id, caller: Id): Result<(Chat, Membership)>
  {
    var c :- Read(f(0), Sql.GetByID(t, chat));
    if c.kind.Direct? then Err(ErrForbidden) else
    var m :- Read(f(1), Sql.GetMember(t, chat, caller));
    Ok((c, m))
  }

  function ManagedGroup(t: Sql.Tables, f: Faults, chat: Id, caller: Id): Result<(Chat, Membership)>
  {
    var cm :- GroupCaller(t, f, chat, caller);
    if CanManageMembers(cm.1.role) then Ok(cm) else Err(ErrInsufficientRights)
  }

  predicate UpdateInputValid(name: Option<string>, description: Option<string>, avatarUrl: Option<string>)
  {
    && (name.Some? ==> 1 <= |name.value| <= 100)
    && (description.Some? ==> |description.value| <= 500)
    && (avatarUrl.Some? ==> Validation.IsUrl(avatarUrl.value))
  }

  function Patched(c: Chat, name: Option<string>, description: Option<string>, avatarUrl: Option<string>,
                   now: int): Chat
  {
    c.(name := if name.Some? then name.value else c.name,
       description := if description.Some? then description.value else c.description,
       avatarUrl := if avatarUrl.Some? then avatarUrl.value else c.avatarUrl,
       updatedAt := now)
  }

  function UpdateGroup(t: Sql.Tables, f: Faults, chat: Id, caller: Id, name: Option<string>,
                       description: Option<string>, avatarUrl: Option<string>, now: int): Outcome<Reply>
  {
    if !UpdateInputValid(name, description, avatarUrl) then Outcome(Err(ErrValidation), [])
    else match ManagedGroup(t, f, chat, caller)
    case Err(e) => Outcome(Err(e), [])
    case Ok((c, _)) =>
      var c' := Patched(c, name, description, avatarUrl, now);
      WriteAndReply(f(2), t, Sql.Update(t, c'), ChatReply(c', false))
  }

  function MayAdd(t: Sql.Tables, f: Faults, chat: Id, caller: Id, user: Id): Result<()>
  {
    var _ :- ManagedGroup(t, f, chat, caller);
    var _ :- Read(f(2), GetUser(t, user));
    var already :- Read(f(3), Ok(Sql.IsMember(t, chat, user)));
    if already then Err(ErrAlreadyChatMember) else Ok(())
  }

  function AddMember(t: Sql.Tables, f: Faults, chat: Id, caller: Id, user: Id, now: int): Outcome<Reply>
  {
    if user == NIL then Outcome(Err(ErrValidation), [])
    else match MayAdd(t, f, chat, caller, user)
    case Err(e) => Outcome(Err(e), [])
    case Ok(_) =>
      WriteAndReply(f(4), t, Sql.AddMember(t, ChatMember(chat, user, Membership(Member, now), false)), Done)
  }

  function MayRemove(t: Sql.Tables, f: Faults, chat: Id, caller: Id, target: Id): Result<()>
  {
    var cm :- ManagedGroup(t, f, chat, caller);
    var m :- Read(f(2), Sql.GetMember(t, chat, target));
    if m.role.Owner? then Err(ErrCannotRemoveOwner)
    else if m.role.Admin? && !cm.1.role.Owner? then Err(ErrInsufficientRights)
    else Ok(())
  }

  function RemoveMember(t: Sql.Tables, f: Faults, chat: Id, caller: Id, target: Id): Outcome<Reply>
  {
    match MayRemove(t, f, chat, caller, target)
    case Err(e) => Outcome(Err(e), [])
    case Ok(_) => WriteAndReply(f(3), t, Sql.RemoveMember(t, chat, target), Done)
  }

  function ParseRole(role: string): Option<Role>
  {
    if role == "admin" then Some(Admin) else if role == "member" then Some(Member) else None
  }

  function MayChangeRole(t: Sql.Tables, f: Faults, chat: Id, caller: Id, user: Id): Result<()>
  {
    if user == caller then Err(ErrForbidden) else
    var m :- Read(f(0), Sql.GetMember(t, chat, caller));
    if !m.role.Owner? then Err(ErrInsufficientRights) else
    var _ :- Read(f(1), Sql.GetMember(t, chat, user));
    Ok(())
  }

  function ChangeMemberRole(t: Sql.Tables, f: Faults, chat: Id, caller: Id, user: Id, role: string): Outcome<Reply>
  {
    if user == NIL || ParseRole(role).None? then Outcome(Err(ErrValidation), [])
    else match MayChangeRole(t, f, chat, caller, user)
    case Err(e) => Outcome(Err(e), [])
    case Ok(_) => WriteAndReply(f(2), t, Sql.UpdateMemberRole(t, chat, user, ParseRole(role).value), Done)
  }

  // ---- Leaving ----

  /** The first admin other than `exclude`; failing that, `fallback`, or else the first other member. */
  function NextOwner(members: seq<ChatMember>, exclude: Id, fallback: Option<ChatMember>): Option<ChatMember>
    decreases |members|
  {
    if members == [] then fallback
    else if members[0].user == exclude then NextOwner(members[1..], exclude, fallback)
    else if members[0].membership.role.Admin? then Some(members[0])
    else NextOwner(members[1..], exclude, if fallback.None? then Some(members[0]) else fallback)
  }

  /** The owner's departure is two writes: the heir is promoted, then the leaver removed. */
  function HandOver(t: Sql.Tables, first: Fault, second: Fault, chat: Id, leaver: Id, heir: Id): Outcome<Reply>
  {
    var (promoted, t1) := Write(first, t, Sql.UpdateMemberRole(t, chat, heir, Owner));
    if promoted.Err? then Outcome(Err(promoted.error), [t1]) else
    var (removed, t2) := Write(second, t1, Sql.RemoveMember(t1, chat, leaver));
    Outcome(if removed.Ok? then Ok(Done) else Err(removed.error), [t1, t2])
  }

  function LeaveChat(t: Sql.Tables, f: Faults, chat: Id, caller: Id): Outcome<Reply>
  {
    match GroupCaller(t, f, chat, caller)
    case Err(e) => Outcome(Err(e), [])
    case Ok((_, m)) =>
      if !m.role.Owner? then
        WriteAndReply(f(2), t, Sql.RemoveMember(t, chat, caller), Done)
      else
        match Read(f(2), Ok(Sql.GetMembers(t, chat)))
        case Err(e) => Outcome(Err(e), [])
        case Ok(members) =>
          match NextOwner(members, caller, None)
          case None => WriteAndReply(f(3), t, Ok(Sql.Delete(t, chat)), Done)
          case Some(next) => HandOver(t, f(3), f(4), chat, caller, next.user)
  }

  // ---- Any use case ----

  datatype Op =
    | CreateDirectOp(caller: Id, target: Id, newId: Id, now: int)
    | CreateGroupOp(caller: Id, name: string, description: string, ids: seq<Id>, newId: Id, now: int)
    | GetChatOp(chat: Id, caller: Id)
    | ListMembersOp(chat: Id, caller: Id)
    | UpdateGroupOp(chat: Id, caller: Id, newName: Option<string>, newDescription: Option<string>,
                    newAvatarUrl: Option<string>, now: int)
    | AddMemberOp(chat: Id, caller: Id, user: Id, now: int)
    | RemoveMemberOp(chat: Id, caller: Id, user: Id)
    | ChangeMemberRoleOp(chat: Id, caller: Id, user: Id, role: string)
    | LeaveChatOp(chat: Id, caller: Id)
    | RegisterUser(user: Id)      // users come, and chat members never go

  function Exec(t: Sql.Tables, f: Faults, op: Op): Outcome<Reply>
  {
    match op
    case CreateDirectOp(caller, target, newId, now) => CreateDirect(t, f, caller, target, newId, now)
    case CreateGroupOp(caller, name, description, ids, newId, now) =>
      CreateGroup(t, f, caller, name, description, ids, newId, now)
    case GetChatOp(chat, caller) =>
      var r := GetChat(t, f, chat, caller);
      Outcome(if r.Ok? then Ok(ChatReply(r.value, false)) else Err(r.error), [])
    case ListMembersOp(chat, caller) =>
      var r := ListMembers(t, f, chat, caller);
      Outcome(if r.Ok? then Ok(MembersReply(r.value)) else Err(r.error), [])
    case UpdateGroupOp(chat, caller, name, description, avatarUrl, now) =>
      UpdateGroup(t, f, chat, caller, name, description, avatarUrl, now)
    case AddMemberOp(chat, caller, user, now) => AddMember(t, f, chat, caller, user, now)
    case RemoveMemberOp(chat, caller, user) => RemoveMember(t, f, chat, caller, user)
    case ChangeMemberRoleOp(chat, caller, user, role) => ChangeMemberRole(t, f, chat, caller, user, role)
    case LeaveChatOp(chat, caller) => LeaveChat(t, f, chat, caller)
    case RegisterUser(user) => Outcome(Ok(Done), [t.(users := t.users + {user})])
  }
}
