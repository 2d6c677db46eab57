/** The chat use cases as they are: calls on the caching repository, in sequence. Each answers,
    and leaves the database, as the same use case over the tables alone. */
module ChatService {
  import opened Wrappers
  import opened Domain
  import opened Uuids
  import opened CachedChats
  import Sql = ChatTables
  import Spec = ChatUseCases

  /** The answer and the final tables are those of the specification. */
  ghost predicate Refines(before: Sql.Tables, after: Sql.Tables, r: Result<Spec.Reply>, out: Spec.Outcome<Spec.Reply>)
  {
    r == out.result && after == out.Final(before)
  }

  /** The scan over a changing fallback. */
  method NextOwner(members: seq<ChatMember>, exclude: Id) returns (next: Option<ChatMember>)
    ensures next == Spec.NextOwner(members, exclude, None)
  {
    var fallback: Option<ChatMember> := None;
    for i := 0 to |members|
      invariant Spec.NextOwner(members[i..], exclude, fallback) == Spec.NextOwner(members, exclude, None)
    {
      var m := members[i];
      assert members[i..][1..] == members[i + 1..];
      if m.user == exclude {
        continue;
      }
      if m.membership.role == Admin {
        return Some(m);
      }
      if fallback.None? {
        fallback := Some(m);
      }
    }
    return fallback;
  }

  class Service {
    const chats: ChatRepo

    constructor (chats: ChatRepo)
      ensures this.chats == chats
    {
      this.chats := chats;
    }

    ghost predicate Valid()
      reads this, chats, chats.db, chats.cache
    {
      chats.Valid()
    }

    /** The user repository of the chat use cases is not cached. */
    method GetUser(id: Id) returns (r: Result<()>)
      ensures r == Spec.GetUser(chats.db.t, id)
    {
      r := Spec.GetUser(chats.db.t, id);
    }

    method AssertMember(chat: Id, user: Id) returns (r: Result<()>)
      requires Valid()
      modifies chats.cache
      ensures Valid() && OnlyChatsChange(old(chats.cache.entries), chats.cache.entries)
      ensures r == Spec.AssertMember(Spec.Works, chats.db.t, chat, user)
    {
      var ok := chats.IsMember(chat, user);
      if !ok {
        return Err(ErrNotChatMember);
      }
      return Ok(());
    }

    method CreateDirect(caller: Id, target: Id, newId: Id, now: int) returns (r: Result<Spec.Reply>)
      requires Valid()
      modifies chats.db, chats.cache
      ensures Valid() && OnlyChatsChange(old(chats.cache.entries), chats.cache.entries)
      ensures Refines(old(chats.db.t), chats.db.t, r,
                Spec.CreateDirect(old(chats.db.t), Spec.NoFaults(), caller, target, newId, now))
    {
      if target == NIL {
        return Err(ErrValidation);
      }
      if target == caller {
        return Err(ErrForbidden);
      }
      var user := GetUser(target);
      if user.Err? {
        return Err(user.error);
      }
      var existing := chats.GetDirectChat(caller, target);
      if existing.Ok? {
        return Ok(Spec.ChatReply(existing.value, false));
      }
      if existing.error != ErrChatNotFound {
        return Err(existing.error);
      }
      var chat := Chat(newId, Direct, "", "", "", caller, now, now);
      var members := [
        ChatMember(chat.id, caller, Membership(Member, now), false),
        ChatMember(chat.id, target, Membership(Member, now), false)];
      var w := chats.CreateWithMembers(chat, members);
      if w.Err? {
        return Err(w.error);
      }
      return Ok(Spec.ChatReply(chat, true));
    }

    method CreateGroup(caller: Id, name: string, description: string, ids: seq<Id>, newId: Id, now: int)
      returns (r: Result<Spec.Reply>)
      requires Valid()
      modifies chats.db, chats.cache
      ensures Valid() && OnlyChatsChange(old(chats.cache.entries), chats.cache.entries)
      ensures Refines(old(chats.db.t), chats.db.t, r,
                Spec.CreateGroup(old(chats.db.t), Spec.NoFaults(), caller, name, description, ids, newId, now))
    {
      if !Spec.GroupInputValid(name, description) {
        return Err(ErrValidation);
      }
      var chat := Chat(newId, Group, name, "", description, caller, now, now);
      ghost var t, f := chats.db.t, Spec.NoFaults();
      ghost var calls := 0;
      for i := 0 to |ids|
        invariant Valid() && chats.db.t == t
        invariant OnlyChatsChange(old(chats.cache.entries), chats.cache.entries)
        invariant Spec.CheckUsers(t, f, calls, caller, ids[i..]) == Spec.CheckUsers(t, f, 0, caller, ids)
      {
        assert ids[i..][1..] == ids[i + 1..];
        if ids[i] == caller {
          continue;
        }
        var user := GetUser(ids[i]);
        if user.Err? {
          return Err(user.error);
        }
        calls := calls + 1;
      }
      assert ids[|ids|..] == [];
      var seen := {caller};
      var members := [ChatMember(chat.id, caller, Membership(Owner, now), false)];
      for i := 0 to |ids|
        invariant Valid() && chats.db.t == t
        invariant OnlyChatsChange(old(chats.cache.entries), chats.cache.entries)
        invariant members + Spec.PlainMembers(newId, Spec.Fresh(ids[i..], seen), now)
               == Spec.GroupMembers(caller, ids, newId, now)
        invariant forall j :: 0 <= j < |members| ==> members[j].chat == newId
      {
        assert ids[i..][1..] == ids[i + 1..];
        if ids[i] in seen {
          continue;
        }
        ghost var rest := Spec.Fresh(ids[i + 1..], seen + {ids[i]});
        assert Spec.PlainMembers(newId, [ids[i]] + rest, now)
            == [ChatMember(newId, ids[i], Membership(Member, now), false)] + Spec.PlainMembers(newId, rest, now);
        seen := seen + {ids[i]};
        members := members + [ChatMember(chat.id, ids[i], Membership(Member, now), false)];
      }
      assert members == Spec.GroupMembers(caller, ids, newId, now);
      var w := chats.CreateWithMembers(chat, members);
      if w.Err? {
        return Err(w.error);
      }
      return Ok(Spec.ChatReply(chat, true));
    }

    method GetChat(chat: Id, caller: Id) returns (r: Result<Chat>)
      requires Valid()
      modifies chats.cache
      ensures Valid() && OnlyChatsChange(old(chats.cache.entries), chats.cache.entries)
      ensures r == Spec.GetChat(chats.db.t, Spec.NoFaults(), chat, caller)
    {
      var allowed := AssertMember(chat, caller);
      if allowed.Err? {
        return Err(allowed.error);
      }
      r := chats.GetByID(chat);
    }

    method GetMembers(chat: Id, caller: Id) returns (r: Result<seq<ChatMember>>)
      requires Valid()
      modifies chats.cache
      ensures Valid() && OnlyChatsChange(old(chats.cache.entries), chats.cache.entries)
      ensures r == Spec.ListMembers(chats.db.t, Spec.NoFaults(), chat, caller)
    {
      var allowed := AssertMember(chat, caller);
      if allowed.Err? {
        return Err(allowed.error);
      }
      var members := chats.GetMembers(chat);
      return Ok(members);
    }

    method UpdateGroup(chatId: Id, caller: Id, name: Option<string>, description: Option<string>,
                       avatarUrl: Option<string>, now: int) returns (r: Result<Spec.Reply>)
      requires Valid()
      modifies chats.db, chats.cache
      ensures Valid() && OnlyChatsChange(old(chats.cache.entries), chats.cache.entries)
      ensures Refines(old(chats.db.t), chats.db.t, r,
                Spec.UpdateGroup(old(chats.db.t), Spec.NoFaults(), chatId, caller, name, description, avatarUrl, now))
    {
      if !Spec.UpdateInputValid(name, description, avatarUrl) {
        return Err(ErrValidation);
      }
      var found := chats.GetByID(chatId);
      if found.Err? {
        return Err(found.error);
      }
      var chat := found.value;
      if chat.kind == Direct {
        return Err(ErrForbidden);
      }
      var member := chats.GetMember(chatId, caller);
      if member.Err? {
        return Err(member.error);
      }
      if !CanManageMembers(member.value.membership.role) {
        return Err(ErrInsufficientRights);
      }
      if name.Some? {
        chat := chat.(name := name.value);
      }
      if description.Some? {
        chat := chat.(description := description.value);
      }
      if avatarUrl.Some? {
        chat := chat.(avatarUrl := avatarUrl.value);
      }
      chat := chat.(updatedAt := now);
      var w := chats.Update(chat);
      if w.Err? {
        return Err(w.error);
      }
      return Ok(Spec.ChatReply(chat, false));
    }

    method AddMember(chatId: Id, caller: Id, user: Id, now: int) returns (r: Result<Spec.Reply>)
      requires Valid()
      modifies chats.db, chats.cache
      ensures Valid() && OnlyChatsChange(old(chats.cache.entries), chats.cache.entries)
      ensures Refines(old(chats.db.t), chats.db.t, r,
                Spec.AddMember(old(chats.db.t), Spec.NoFaults(), chatId, caller, user, now))
    {
      if user == NIL {
        return Err(ErrValidation);
      }
      var chat := chats.GetByID(chatId);
      if chat.Err? {
        return Err(chat.error);
      }
      if chat.value.kind == Direct {
        return Err(ErrForbidden);
      }
      var member := chats.GetMember(chatId, caller);
      if member.Err? {
        return Err(member.error);
      }
      if !CanManageMembers(member.value.membership.role) {
        return Err(ErrInsufficientRights);
      }
      var known := GetUser(user);
      if known.Err? {
        return Err(known.error);
      }
      var already := chats.IsMember(chatId, user);
      if already {
        return Err(ErrAlreadyChatMember);
      }
      var w := chats.AddMember(ChatMember(chatId, user, Membership(Member, now), false));
      if w.Err? {
        return Err(w.error);
      }
      return Ok(Spec.Done);
    }

    method RemoveMember(chatId: Id, caller: Id, target: Id) returns (r: Result<Spec.Reply>)
      requires Valid()
      modifies chats.db, chats.cache
      ensures Valid() && OnlyChatsChange(old(chats.cache.entries), chats.cache.entries)
      ensures Refines(old(chats.db.t), chats.db.t, r,
                Spec.RemoveMember(old(chats.db.t), Spec.NoFaults(), chatId, caller, target))
    {
      var chat := chats.GetByID(chatId);
      if chat.Err? {
        return Err(chat.error);
      }
      if chat.value.kind == Direct {
        return Err(ErrForbidden);
      }
      var member := chats.GetMember(chatId, caller);
      if member.Err? {
        return Err(member.error);
      }
      if !CanManageMembers(member.value.membership.role) {
        return Err(ErrInsufficientRights);
      }
      var removed := chats.GetMember(chatId, target);
      if removed.Err? {
        return Err(removed.error);
      }
      if removed.value.membership.role == Owner {
        return Err(ErrCannotRemoveOwner);
      }
      if removed.value.membership.role == Admin && member.value.membership.role != Owner {
        return Err(ErrInsufficientRights);
      }
      var w := chats.RemoveMember(chatId, target);
      if w.Err? {
        return Err(w.error);
      }
      return Ok(Spec.Done);
    }

    method ChangeMemberRole(chatId: Id, caller: Id, user: Id, role: string) returns (r: Result<Spec.Reply>)
      requires Valid()
      modifies chats.db, chats.cache
      ensures Valid() && OnlyChatsChange(old(chats.cache.entries), chats.cache.entries)
      ensures Refines(old(chats.db.t), chats.db.t, r,
                Spec.ChangeMemberRole(old(chats.db.t), Spec.NoFaults(), chatId, caller, user, role))
    {
      if user == NIL || Spec.ParseRole(role).None? {
        return Err(ErrValidation);
      }
      if user == caller {
        return Err(ErrForbidden);
      }
      var member := chats.GetMember(chatId, caller);
      if member.Err? {
        return Err(member.error);
      }
      if member.value.membership.role != Owner {
        return Err(ErrInsufficientRights);
      }
      var target := chats.GetMember(chatId, user);
      if target.Err? {
        return Err(target.error);
      }
      var w := chats.UpdateMemberRole(chatId, user, Spec.ParseRole(role).value);
      if w.Err? {
        return Err(w.error);
      }
      return Ok(Spec.Done);
    }

    method LeaveChat(chatId: Id, caller: Id) returns (r: Result<Spec.Reply>)
      requires Valid()
      modifies chats.db, chats.cache
      ensures Valid() && OnlyChatsChange(old(chats.cache.entries), chats.cache.entries)
      ensures Refines(old(chats.db.t), chats.db.t, r,
                Spec.LeaveChat(old(chats.db.t), Spec.NoFaults(), chatId, caller))
    {
      var chat := chats.GetByID(chatId);
      if chat.Err? {
        return Err(chat.error);
      }
      if chat.value.kind == Direct {
        return Err(ErrForbidden);
      }
      var member := chats.GetMember(chatId, caller);
      if member.Err? {
        return Err(member.error);
      }
      if member.value.membership.role == Owner {
        var members := chats.GetMembers(chatId);
        var next := NextOwner(members, caller);
        if next.None? {
          chats.Delete(chatId);
          return Ok(Spec.Done);
        }
        var promoted := chats.UpdateMemberRole(chatId, next.value.user, Owner);
        if promoted.Err? {
          return Err(promoted.error);
        }
      }
      var w := chats.RemoveMember(chatId, caller);
      if w.Err? {
        return Err(w.error);
      }
      return Ok(Spec.Done);
    }
  }
}
