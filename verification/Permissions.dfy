/** Who can change what: every change any use case makes to a membership or a message, with any
    repository call failing, is one its caller had the right to make. */
module Permissions {
  import opened Wrappers
  import opened Domain
  import opened Uuids
  import opened ChatUseCases
  import opened Ownership
  import Sql = ChatTables
  import M = MessageTables
  import Msgs = MessageUseCases

  predicate HasRole(t: Sql.Tables, chat: Id, user: Id, roles: set<Role>)
  {
    (chat, user) in t.members && t.members[(chat, user)].role in roles
  }

  function NewChatId(op: Op): Option<Id>
  {
    match op
    case CreateDirectOp(_, _, newId, _) => Some(newId)
    case CreateGroupOp(_, _, _, _, newId, _) => Some(newId)
    case _ => None
  }

  /** A member comes with its chat, or is added to a live group, as a plain member, by an owner or admin. */
  ghost predicate MayJoin(t: Sql.Tables, op: Op, chat: Id, user: Id, row: Membership)
  {
    NewChatId(op) == Some(chat) ||
    (op.AddMemberOp? && op.chat == chat && op.user == user && LiveGroup(t, chat) && user in t.users &&
     HasRole(t, chat, op.caller, {Owner, Admin}) && row.role.Member?)
  }

  /** A member leaves by itself, or is removed from a live group: a plain member by an owner or
      admin, an admin by an owner, an owner by nobody. */
  ghost predicate MayGo(t: Sql.Tables, op: Op, chat: Id, user: Id)
  {
    LiveGroup(t, chat) &&
    ((op.LeaveChatOp? && op.chat == chat && op.caller == user) ||
     (op.RemoveMemberOp? && op.chat == chat && op.user == user &&
      ((HasRole(t, chat, user, {Member}) && HasRole(t, chat, op.caller, {Owner, Admin})) ||
       (HasRole(t, chat, user, {Admin}) && HasRole(t, chat, op.caller, {Owner})))))
  }

  /** A role changes by an owner's word on somebody else, never to owner; or to owner when an
      owner leaves. Nobody's join time changes. */
  ghost predicate MayChange(t: Sql.Tables, op: Op, chat: Id, user: Id, row: Membership, row': Membership)
  {
    row'.joinedAt == row.joinedAt &&
    ((op.ChangeMemberRoleOp? && op.chat == chat && op.user == user && op.caller != user &&
      HasRole(t, chat, op.caller, {Owner}) && !row'.role.Owner?) ||
     (op.LeaveChatOp? && op.chat == chat && op.caller != user && LiveGroup(t, chat) &&
      HasRole(t, chat, op.caller, {Owner}) && row'.role.Owner?))
  }

  /** What the tables may have become of one membership. */
  ghost predicate RowByRight(t: Sql.Tables, s: Sql.Tables, op: Op, chat: Id, user: Id)
  {
    var k := (chat, user);
    if k in t.members then
      if k in s.members then t.members[k] == s.members[k] || MayChange(t, op, chat, user, t.members[k], s.members[k])
      else MayGo(t, op, chat, user)
    else k in s.members ==> MayJoin(t, op, chat, user, s.members[k])
  }

  lemma CreationByRight(t: Sql.Tables, op: Op, chat: Chat, ms: seq<ChatMember>, c: Id, user: Id)
    requires KeysHold(t) && NewChatId(op) == Some(chat.id)
    requires forall i :: 0 <= i < |ms| ==> ms[i].chat == chat.id
    ensures Sql.CreateWithMembers(t, chat, ms).Ok? ==>
              RowByRight(t, Sql.CreateWithMembers(t, chat, ms).value, op, c, user)
  {
    if Sql.CreateWithMembers(t, chat, ms).Ok? {
      Created(t, chat, ms);
      assert c != chat.id ==> SameChat(t, Sql.CreateWithMembers(t, chat, ms).value, c);
      assert (chat.id, user) in t.members ==> (chat.id, user).0 in t.chats;
    }
  }

  lemma HandOverByRight(t: Sql.Tables, op: Op, first: Fault, second: Fault, heir: Id, i: nat, c: Id, user: Id)
    requires op.LeaveChatOp? && LiveGroup(t, op.chat) && HasRole(t, op.chat, op.caller, {Owner}) && heir != op.caller
    requires i < |HandOver(t, first, second, op.chat, op.caller, heir).trail|
    ensures RowByRight(t, HandOver(t, first, second, op.chat, op.caller, heir).trail[i], op, c, user)
  {
  }

  lemma LeaveByRight(t: Sql.Tables, f: Faults, op: Op, i: nat, c: Id, user: Id)
    requires KeysHold(t) && op.LeaveChatOp? && i < |LeaveChat(t, f, op.chat, op.caller).trail|
    ensures RowByRight(t, LeaveChat(t, f, op.chat, op.caller).trail[i], op, c, user)
  {
    var gc := GroupCaller(t, f, op.chat, op.caller);
    ManagersActOnGroups(t, f, op.chat, op.caller);
    if gc.value.1.role.Owner? {
      var members := Sql.GetMembers(t, op.chat);
      var k := NextOwnerIsSuccessor(members, op.caller);
      if HasOther(members, op.caller) {
        HandOverByRight(t, op, f(3), f(4), members[k].user, i, c, user);
      }
    }
  }

  lemma AddByRight(t: Sql.Tables, f: Faults, op: Op, i: nat, c: Id, user: Id)
    requires KeysHold(t) && op.AddMemberOp? && i < |Exec(t, f, op).trail|
    ensures RowByRight(t, Exec(t, f, op).trail[i], op, c, user)
  {
  }

  lemma RemoveByRight(t: Sql.Tables, f: Faults, op: Op, i: nat, c: Id, user: Id)
    requires KeysHold(t) && op.RemoveMemberOp? && i < |Exec(t, f, op).trail|
    ensures RowByRight(t, Exec(t, f, op).trail[i], op, c, user)
  {
  }

  lemma RoleByRight(t: Sql.Tables, f: Faults, op: Op, i: nat, c: Id, user: Id)
    requires KeysHold(t) && op.ChangeMemberRoleOp? && i < |Exec(t, f, op).trail|
    ensures RowByRight(t, Exec(t, f, op).trail[i], op, c, user)
  {
  }

  lemma OthersTouchNoRow(t: Sql.Tables, f: Faults, op: Op, i: nat)
    requires i < |Exec(t, f, op).trail|
    requires op.UpdateGroupOp? || op.GetChatOp? || op.ListMembersOp? || op.RegisterUser?
    ensures Exec(t, f, op).trail[i].members == t.members
  {
  }

  /** After every repository call of every use case, whatever fails, each membership is as it
      was or changed by somebody entitled to. */
  lemma MembershipsChangeByRight(t: Sql.Tables, f: Faults, op: Op, i: nat, c: Id, user: Id)
    requires KeysHold(t) && i < |Exec(t, f, op).trail|
    ensures RowByRight(t, Exec(t, f, op).trail[i], op, c, user)
  {
    match op
    case CreateDirectOp(caller, target, newId, now) =>
      CreationByRight(t, op, NewDirect(caller, newId, now), DirectMembers(caller, target, newId, now), c, user);
    case CreateGroupOp(caller, name, description, ids, newId, now) =>
      CreationByRight(t, op, NewGroup(caller, name, description, newId, now),
                      GroupMembers(caller, ids, newId, now), c, user);
    case LeaveChatOp(_, _) => LeaveByRight(t, f, op, i, c, user);
    case AddMemberOp(_, _, _, _) => AddByRight(t, f, op, i, c, user);
    case RemoveMemberOp(_, _, _) => RemoveByRight(t, f, op, i, c, user);
    case ChangeMemberRoleOp(_, _, _, _) => RoleByRight(t, f, op, i, c, user);
    case _ => OthersTouchNoRow(t, f, op, i);
  }

  /** The description of a chat that is there changes only by an owner or admin of a live group,
      only in the fields given, and never in its kind, creator or creation time. */
  ghost predicate ChatByRight(t: Sql.Tables, s: Sql.Tables, op: Op, c: Id)
    requires c in t.chats
  {
    c in s.chats &&
    (s.chats[c] == t.chats[c] ||
     (op.UpdateGroupOp? && op.chat == c && LiveGroup(t, c) && HasRole(t, c, op.caller, {Owner, Admin}) &&
      var old', new' := t.chats[c], s.chats[c];
      && new'.id == old'.id && new'.kind == old'.kind && new'.createdBy == old'.createdBy
      && new'.createdAt == old'.createdAt && new'.updatedAt == op.now
      && new'.name == (if op.newName.Some? then op.newName.value else old'.name)
      && new'.description == (if op.newDescription.Some? then op.newDescription.value else old'.description)
      && new'.avatarUrl == (if op.newAvatarUrl.Some? then op.newAvatarUrl.value else old'.avatarUrl)))
  }

  lemma UpdateByRight(t: Sql.Tables, f: Faults, op: Op, i: nat, c: Id)
    requires KeysHold(t) && op.UpdateGroupOp? && i < |Exec(t, f, op).trail| && c in t.chats
    ensures ChatByRight(t, Exec(t, f, op).trail[i], op, c)
  {
    ManagersActOnGroups(t, f, op.chat, op.caller);
  }

  lemma MemberOpsKeepChats(t: Sql.Tables, f: Faults, op: Op, i: nat)
    requires i < |Exec(t, f, op).trail|
    requires op.AddMemberOp? || op.RemoveMemberOp? || op.ChangeMemberRoleOp? || op.RegisterUser?
          || op.GetChatOp? || op.ListMembersOp?
    ensures Exec(t, f, op).trail[i].chats == t.chats
  {
  }

  lemma RemovalKeepsChats(t: Sql.Tables, f: Fault, chat: Id, user: Id)
    ensures WriteAndReply(f, t, Sql.RemoveMember(t, chat, user), Done).trail[0].chats == t.chats
  {
  }

  lemma DeletionKeepsChats(t: Sql.Tables, f: Fault, chat: Id)
    ensures WriteAndReply(f, t, Ok(Sql.Delete(t, chat)), Done).trail[0].chats == t.chats
  {
  }

  lemma LeaveKeepsChats(t: Sql.Tables, f: Faults, chat: Id, caller: Id, i: nat)
    requires i < |LeaveChat(t, f, chat, caller).trail|
    ensures LeaveChat(t, f, chat, caller).trail[i].chats == t.chats
  {
    var heir := LeaveTrail(t, f, chat, caller);
    if IsOwner(t, chat, caller) {
      if HasOther(Sql.GetMembers(t, chat), caller) {
        HandOverNeverDeletes(t, f(3), f(4), chat, caller, heir, i);
      } else {
        DeletionKeepsChats(t, f(3), chat);
      }
    } else {
      RemovalKeepsChats(t, f(2), chat, caller);
    }
  }

  lemma ChatsChangeByRight(t: Sql.Tables, f: Faults, op: Op, i: nat, c: Id)
    requires KeysHold(t) && i < |Exec(t, f, op).trail| && c in t.chats
    ensures ChatByRight(t, Exec(t, f, op).trail[i], op, c)
  {
    match op
    case CreateDirectOp(caller, target, newId, now) =>
      CreationKeepsChats(t, NewDirect(caller, newId, now), DirectMembers(caller, target, newId, now), c);
    case CreateGroupOp(caller, name, description, ids, newId, now) =>
      CreationKeepsChats(t, NewGroup(caller, name, description, newId, now), GroupMembers(caller, ids, newId, now), c);
    case UpdateGroupOp(_, _, _, _, _, _) => UpdateByRight(t, f, op, i, c);
    case LeaveChatOp(chat, caller) => LeaveKeepsChats(t, f, chat, caller, i);
    case _ => MemberOpsKeepChats(t, f, op, i);
  }

  lemma CreationKeepsChats(t: Sql.Tables, chat: Chat, ms: seq<ChatMember>, c: Id)
    requires c in t.chats
    ensures var w := Sql.CreateWithMembers(t, chat, ms);
            w.Ok? ==> c in w.value.chats && w.value.chats[c] == t.chats[c]
  {
    if Sql.CreateWithMembers(t, chat, ms).Ok? {
      Sql.InsertMembersAdds(t.(chats := t.chats[chat.id := chat]), ms);
    }
  }

  // ---- Who gets to read ----

  lemma {:induction false} RunSplit(t: Sql.Tables, calls: seq<Call>, more: seq<Call>)
    ensures Run(t, calls + more) == Run(Run(t, calls), more)
    decreases |calls|
  {
    if calls == [] {
      assert [] + more == more;
    } else {
      assert (calls + more)[1..] == calls[1..] + more;
      RunSplit(Exec(t, calls[0].faults, calls[0].op).Final(t), calls[1..], more);
    }
  }

  lemma RunLast(t: Sql.Tables, calls: seq<Call>)
    requires calls != []
    ensures var front, last := calls[..|calls| - 1], calls[|calls| - 1];
            Run(t, calls) == Exec(Run(t, front), last.faults, last.op).Final(Run(t, front))
  {
    var front, last := calls[..|calls| - 1], calls[|calls| - 1];
    assert calls == front + [last];
    RunSplit(t, front, [last]);
    assert Run(Run(t, front), [last]) == Run(Exec(Run(t, front), last.faults, last.op).Final(Run(t, front)), []);
  }

  /** The tables before each call, and after the last. */
  ghost function States(t: Sql.Tables, calls: seq<Call>): (r: seq<Sql.Tables>)
    ensures |r| == |calls| + 1
    decreases |calls|
  {
    if calls == [] then [t] else
    States(t, calls[..|calls| - 1]) + [Run(t, calls)]
  }

  /** The i-th call let the user in, as its caller might, and the user has been in ever since. */
  ghost predicate AdmittedBy(states: seq<Sql.Tables>, calls: seq<Call>, i: int, chat: Id, user: Id)
    requires |states| == |calls| + 1
  {
    0 <= i < |calls| &&
    (chat, user) !in states[i].members &&
    (forall j :: i < j <= |calls| ==> (chat, user) in states[j].members) &&
    MayJoin(states[i], calls[i].op, chat, user, states[i + 1].members[(chat, user)])
  }

  lemma StillAdmitted(states: seq<Sql.Tables>, calls: seq<Call>, i: int, chat: Id, user: Id)
    requires |states| == |calls| + 1 && calls != []
    requires AdmittedBy(states[..|calls|], calls[..|calls| - 1], i, chat, user)
    requires (chat, user) in states[|calls|].members
    ensures AdmittedBy(states, calls, i, chat, user)
  {
    assert states[..|calls|][i] == states[i] && states[..|calls|][i + 1] == states[i + 1];
    forall j | i < j <= |calls|
      ensures (chat, user) in states[j].members
    {
      if j < |calls| { assert states[..|calls|][j] == states[j]; }
    }
  }

  lemma JoinedByRight(t: Sql.Tables, call: Call, chat: Id, user: Id)
    requires KeysHold(t) && (chat, user) !in t.members
    requires (chat, user) in Exec(t, call.faults, call.op).Final(t).members
    ensures MayJoin(t, call.op, chat, user, Exec(t, call.faults, call.op).Final(t).members[(chat, user)])
  {
    var trail := Exec(t, call.faults, call.op).trail;
    MembershipsChangeByRight(t, call.faults, call.op, |trail| - 1, chat, user);
  }

  lemma LastState(t: Sql.Tables, calls: seq<Call>)
    ensures States(t, calls)[|calls|] == Run(t, calls)
  {
  }

  /** Over every run with any failures: each member was let in by a call that might. */
  lemma {:induction false} MembersWereAdmitted(t: Sql.Tables, calls: seq<Call>, chat: Id, user: Id) returns (i: int)
    requires Start(t) && (chat, user) in Run(t, calls).members
    ensures AdmittedBy(States(t, calls), calls, i, chat, user)
    decreases |calls|
  {
    assert calls != [];
    var states, front, last := States(t, calls), calls[..|calls| - 1], calls[|calls| - 1];
    assert states[..|calls|] == States(t, front);
    LastState(t, front);
    if (chat, user) in Run(t, front).members {
      i := MembersWereAdmitted(t, front, chat, user);
      StillAdmitted(states, calls, i, chat, user);
    } else {
      i := |calls| - 1;
      assert Inv(t);
      RunKeeps(t, front);
      RunLast(t, calls);
      JoinedByRight(Run(t, front), last, chat, user);
      assert states[i] == Run(t, front);
    }
  }

  /** Whoever is shown a chat, its members or its history, after any run with any failures, was
      let in by a call that might, and has been a member ever since. */
  lemma ReadsByRight(t: Sql.Tables, calls: seq<Call>, s: M.Store, f: Faults, chat: Id, caller: Id,
                     cursor: Option<M.Key>, limit: nat) returns (i: int)
    requires Start(t) && limit >= 1
    requires var t' := Run(t, calls);
             || GetChat(t', f, chat, caller).Ok? || ListMembers(t', f, chat, caller).Ok?
             || Msgs.GetHistory(t', s, caller, chat, cursor, limit).Ok?
    ensures AdmittedBy(States(t, calls), calls, i, chat, caller)
  {
    i := MembersWereAdmitted(t, calls, chat, caller);
  }

  // ---- The other direction: what is permitted succeeds ----

  /** Without failures, removing a member succeeds exactly for those it may be removed by. */
  lemma RemoveMemberSucceedsIff(t: Sql.Tables, chat: Id, caller: Id, user: Id)
    requires KeysHold(t)
    ensures RemoveMember(t, NoFaults(), chat, caller, user).result.Ok? <==>
              MayGo(t, RemoveMemberOp(chat, caller, user), chat, user)
    ensures var out := RemoveMember(t, NoFaults(), chat, caller, user);
            out.Final(t) == if out.result.Ok? then t.(members := t.members - {(chat, user)}) else t
  {
    assert (chat, caller) in t.members ==> (chat, caller).1 in t.users;
    assert (chat, user) in t.members ==> (chat, user).1 in t.users;
  }

  lemma ChangeRoleSucceedsIff(t: Sql.Tables, chat: Id, caller: Id, user: Id, role: string)
    requires KeysHold(t) && user != NIL
    ensures ChangeMemberRole(t, NoFaults(), chat, caller, user, role).result.Ok? <==>
              role in ["admin", "member"] && user != caller &&
              HasRole(t, chat, caller, {Owner}) && (chat, user) in t.members &&
              !(t.dialect.MySQL? && HasRole(t, chat, user, {if role == "admin" then Admin else Member}))
    ensures var out := ChangeMemberRole(t, NoFaults(), chat, caller, user, role);
            && (out.result.Err? ==> out.Final(t) == t)
            && (out.result.Ok? ==> (chat, user) in t.members && out.Final(t) == t.(members := t.members[(chat, user) :=
                 Membership(if role == "admin" then Admin else Member, t.members[(chat, user)].joinedAt)]))
  {
    assert (chat, caller) in t.members ==> (chat, caller).1 in t.users;
    assert (chat, user) in t.members ==> (chat, user).1 in t.users;
  }

  lemma AddMemberSucceedsIff(t: Sql.Tables, chat: Id, caller: Id, user: Id, now: int)
    requires KeysHold(t) && user != NIL
    ensures AddMember(t, NoFaults(), chat, caller, user, now).result.Ok? <==>
              (chat, user) !in t.members &&
              MayJoin(t, AddMemberOp(chat, caller, user, now), chat, user, Membership(Member, now))
    ensures var out := AddMember(t, NoFaults(), chat, caller, user, now);
            out.Final(t) == if out.result.Err? then t
                            else t.(members := t.members[(chat, user) := Membership(Member, now)])
  {
    assert (chat, caller) in t.members ==> (chat, caller).1 in t.users;
  }

  // ---- Messages ----

  /** A message is as it was; or its author, a member of its chat, edited it while it was live,
      which sets its content and times; or its author deleted it, which sets its times. */
  ghost predicate MessageByRight(t: Sql.Tables, m: M.Message, m': M.Message, op: Msgs.Op)
  {
    m' == m ||
    (m.deletedAt.None? && Sql.IsMember(t, m.chat, m.sender) &&
     ((op.EditOp? && op.id == m.id && op.caller == m.sender &&
       m' == m.(content := op.content, editedAt := Some(op.now), updatedAt := op.now)) ||
      (op.DeleteOp? && op.id == m.id && op.caller == m.sender &&
       m' == m.(deletedAt := Some(op.dbNow), updatedAt := op.dbNow))))
  }

  /** A new message is what a member of its chat sent. */
  ghost predicate SentByRight(t: Sql.Tables, s: M.Store, m: M.Message, op: Msgs.Op)
  {
    op.SendOp? && Sql.IsMember(t, op.chat, op.sender) &&
    m.id == op.newId && m.chat == op.chat && m.sender == op.sender &&
    m.content == op.content && m.kind == op.kind && m.replyTo == op.replyTo &&
    m.editedAt == None && m.deletedAt == None && m.createdAt == op.now && m.updatedAt == op.now &&
    (op.replyTo.Some? ==> op.replyTo.value in s.messages && s.messages[op.replyTo.value].chat == op.chat)
  }

  lemma MessagesChangeByRight(t: Sql.Tables, s: M.Store, op: Msgs.Op, id: Id)
    requires Msgs.IdsSound(s)
    ensures var s' := Msgs.Exec(t, s, op).1;
            if id in s.messages
            then id in s'.messages && MessageByRight(t, s.messages[id], s'.messages[id], op)
            else id in s'.messages ==> SentByRight(t, s, s'.messages[id], op)
  {
    if op.SendOp? {
      SendByRight(t, s, op, id);
    } else if op.EditOp? {
      EditByRight(t, s, op, id);
    } else if op.DeleteOp? {
      DeleteByRight(t, s, op, id);
    }
  }

  lemma SendByRight(t: Sql.Tables, s: M.Store, op: Msgs.Op, id: Id)
    requires op.SendOp?
    ensures var s' := Msgs.Send(t, s, op.sender, op.chat, op.content, op.kind, op.replyTo, op.newId, op.now).1;
            if id in s.messages then id in s'.messages && s'.messages[id] == s.messages[id]
            else id in s'.messages ==> SentByRight(t, s, s'.messages[id], op)
  {
  }

  lemma EditByRight(t: Sql.Tables, s: M.Store, op: Msgs.Op, id: Id)
    requires Msgs.IdsSound(s) && op.EditOp?
    ensures var s' := Msgs.Edit(t, s, op.id, op.caller, op.content, op.now).1;
            s'.messages.Keys == s.messages.Keys &&
            (id in s.messages ==> MessageByRight(t, s.messages[id], s'.messages[id], op))
  {
  }

  lemma DeleteByRight(t: Sql.Tables, s: M.Store, op: Msgs.Op, id: Id)
    requires Msgs.IdsSound(s) && op.DeleteOp?
    ensures var s' := Msgs.DeleteMessage(t, s, op.id, op.caller, op.dbNow).1;
            s'.messages.Keys == s.messages.Keys &&
            (id in s.messages ==> MessageByRight(t, s.messages[id], s'.messages[id], op))
  {
  }

  /** A reaction appears only by its own user's adding it, and goes only by the same user's taking
      it back, as a member, while the message is live; it is never rewritten. */
  lemma ReactionsChangeByRight(t: Sql.Tables, s: M.Store, op: Msgs.Op, message: Id, user: Id, emoji: string)
    ensures var s', k := Msgs.Exec(t, s, op).1, (message, user, emoji);
            && (k in s.reactions && k in s'.reactions ==> s'.reactions[k] == s.reactions[k])
            && ((k in s.reactions) != (k in s'.reactions) ==>
                 (if k in s'.reactions then op.ReactOp? && s'.reactions[k] == op.now else op.UnreactOp?) &&
                 op.id == message && op.caller == user && op.emoji == emoji &&
                 M.Live(s, message) && Sql.IsMember(t, s.messages[message].chat, user))
  {
  }

  /** Sending needs membership, a new id, valid content, and a reply target in the same chat;
      editing and deleting need one's own live message in a chat one is a member of. */
  lemma MessageOpsSucceedIff(t: Sql.Tables, s: M.Store, caller: Id, id: Id, chat: Id, content: string,
                             kind: string, replyTo: Option<Id>, now: int)
    requires Msgs.IdsSound(s)
    ensures Msgs.Send(t, s, caller, chat, content, kind, replyTo, id, now).0.Ok? <==>
              chat != NIL && 1 <= |content| <= 4096 && kind in ["text", "image", "file"] &&
              Sql.IsMember(t, chat, caller) && id !in s.messages &&
              (replyTo.Some? ==> replyTo.value in s.messages && s.messages[replyTo.value].chat == chat)
    ensures var (r, s') := Msgs.Send(t, s, caller, chat, content, kind, replyTo, id, now);
            if r.Ok? then id in s'.messages && r == Ok(Msgs.MessageReply(s'.messages[id])) else s' == s
    ensures Msgs.Edit(t, s, id, caller, content, now).0.Ok? <==>
              1 <= |content| <= 4096 && M.Live(s, id) && s.messages[id].sender == caller &&
              Sql.IsMember(t, s.messages[id].chat, caller)
    ensures Msgs.DeleteMessage(t, s, id, caller, now).0.Ok? <==>
              M.Live(s, id) && s.messages[id].sender == caller && Sql.IsMember(t, s.messages[id].chat, caller)
  {
  }

  /** After marking a chat read, exactly the messages of others created since are unread; for
      other users and chats nothing changes. */
  lemma UnreadAfterReading(t: Sql.Tables, s: M.Store, chat: Id, caller: Id, dbNow: int, other: Id, user: Id)
    requires Sql.IsMember(t, chat, caller)
    ensures var s' := Msgs.ReadChat(t, s, chat, caller, dbNow).1;
            && (forall id :: id in M.Unread(s', chat, caller) <==>
                 M.Live(s, id) && s.messages[id].chat == chat && s.messages[id].sender != caller &&
                 s.messages[id].createdAt > dbNow)
            && (other != chat || user != caller ==> M.Unread(s', other, user) == M.Unread(s, other, user))
  {
  }
}
