/** What every run of the chat use cases keeps: who owns a group, and who is in a direct chat. */
module Ownership {
  import opened Wrappers
  import opened Domain
  import opened Uuids
  import opened ChatUseCases
  import Sql = ChatTables
  import Ordering

  // ---- The members list ----

  /** Rows refer to known chats and users. */
  ghost predicate KeysHold(t: Sql.Tables)
  {
    (forall k :: k in t.members ==> k.0 in t.chats && k.1 in t.users) &&
    (forall c :: c in t.chats ==> t.chats[c].id == c) &&
    t.deleted <= t.chats.Keys
  }

  /** The list is the chat's members, each once, by (joined_at, user_id). */
  lemma MembersListed(t: Sql.Tables, chat: Id)
    ensures var ms := Sql.GetMembers(t, chat);
            && (forall u :: (exists i :: 0 <= i < |ms| && ms[i].user == u) <==> (chat, u) in t.members && u in t.users)
            && (forall i, j :: 0 <= i < j < |ms| ==>
                 ms[i].membership.joinedAt < ms[j].membership.joinedAt ||
                 (ms[i].membership.joinedAt == ms[j].membership.joinedAt && ms[i].user < ms[j].user))
  {
    Sql.JoinOrderTotal();
    var set' := Sql.MemberKeys(t, chat);
    var keys, ms := Ordering.Listed(Sql.JoinedBefore, set'), Sql.GetMembers(t, chat);
    assert |ms| == |keys|;
    forall i | 0 <= i < |keys|
      ensures ms[i].user == keys[i].1 && ms[i].membership.joinedAt == keys[i].0
    {
      assert keys[i] in set';
    }
    forall u | (chat, u) in t.members && u in t.users
      ensures exists i :: 0 <= i < |ms| && ms[i].user == u
    {
      assert (t.members[(chat, u)].joinedAt, u) in set';
      assert (t.members[(chat, u)].joinedAt, u) in keys;
      var i :| 0 <= i < |keys| && keys[i] == (t.members[(chat, u)].joinedAt, u);
      assert ms[i].user == u;
    }
  }

  // ---- The next owner ----

  predicate Other(members: seq<ChatMember>, i: int, exclude: Id)
  {
    0 <= i < |members| && members[i].user != exclude
  }

  predicate OtherAdmin(members: seq<ChatMember>, i: int, exclude: Id)
  {
    Other(members, i, exclude) && members[i].membership.role.Admin?
  }

  ghost predicate HasOther(members: seq<ChatMember>, exclude: Id)
  {
    exists i :: Other(members, i, exclude)
  }

  ghost predicate HasOtherAdmin(members: seq<ChatMember>, exclude: Id)
  {
    exists i :: OtherAdmin(members, i, exclude)
  }

  /** The first admin other than the leaver, else the first other member. */
  ghost predicate Successor(members: seq<ChatMember>, exclude: Id, i: int)
  {
    if HasOtherAdmin(members, exclude)
      then OtherAdmin(members, i, exclude) && forall j :: 0 <= j < i ==> !OtherAdmin(members, j, exclude)
      else Other(members, i, exclude) && forall j :: 0 <= j < i ==> !Other(members, j, exclude)
  }

  /** Where the scan stops, given the fallback it already holds. */
  lemma {:induction false} NextOwnerScan(members: seq<ChatMember>, exclude: Id, fallback: Option<ChatMember>)
    returns (i: int)
    ensures var r := NextOwner(members, exclude, fallback);
            if HasOtherAdmin(members, exclude) || (fallback.None? && HasOther(members, exclude))
            then Successor(members, exclude, i) && r == Some(members[i])
            else r == fallback
    decreases |members|
  {
    i := 0;
    if members != [] {
      var rest := members[1..];
      Shift(members, exclude);
      if members[0].user == exclude {
        var k := NextOwnerScan(rest, exclude, fallback);
        i := k + 1;
      } else if members[0].membership.role.Admin? {
        assert OtherAdmin(members, 0, exclude);
      } else {
        assert Other(members, 0, exclude);
        var k := NextOwnerScan(rest, exclude, if fallback.None? then Some(members[0]) else fallback);
        i := if HasOtherAdmin(rest, exclude) then k + 1 else 0;
      }
    }
  }

  lemma Shift(members: seq<ChatMember>, exclude: Id)
    requires members != []
    ensures forall j :: j != 0 ==>
              (Other(members, j, exclude) <==> Other(members[1..], j - 1, exclude)) &&
              (OtherAdmin(members, j, exclude) <==> OtherAdmin(members[1..], j - 1, exclude))
    ensures HasOther(members, exclude) <==> Other(members, 0, exclude) || HasOther(members[1..], exclude)
    ensures HasOtherAdmin(members, exclude) <==> OtherAdmin(members, 0, exclude) || HasOtherAdmin(members[1..], exclude)
  {
    var rest := members[1..];
    assert forall j :: 0 < j < |members| ==> members[j] == rest[j - 1];
    if HasOther(rest, exclude) {
      var j :| Other(rest, j, exclude);
      assert Other(members, j + 1, exclude);
    }
    if HasOtherAdmin(rest, exclude) {
      var j :| OtherAdmin(rest, j, exclude);
      assert OtherAdmin(members, j + 1, exclude);
    }
  }

  /** The scan finds nobody exactly when the leaver is alone, and otherwise the successor. */
  lemma NextOwnerIsSuccessor(members: seq<ChatMember>, exclude: Id) returns (i: int)
    ensures var r := NextOwner(members, exclude, None);
            if HasOther(members, exclude)
            then Successor(members, exclude, i) && r == Some(members[i])
            else r == None
  {
    i := NextOwnerScan(members, exclude, None);
    if HasOtherAdmin(members, exclude) {
      var j :| OtherAdmin(members, j, exclude);
      assert Other(members, j, exclude);
    }
  }

  // ---- The invariant of every repository-call boundary, faults included ----

  ghost predicate IsOwner(t: Sql.Tables, chat: Id, user: Id)
  {
    (chat, user) in t.members && t.members[(chat, user)].role.Owner?
  }

  ghost predicate LiveGroup(t: Sql.Tables, chat: Id)
  {
    Sql.Live(t, chat) && t.chats[chat].kind.Group?
  }

  ghost predicate Owned(t: Sql.Tables, chat: Id)
  {
    LiveGroup(t, chat) ==> exists u :: IsOwner(t, chat, u)
  }

  ghost predicate IsDirect(t: Sql.Tables, chat: Id)
  {
    chat in t.chats && t.chats[chat].kind.Direct?
  }

  /** Two distinct members, both with role member, and nobody else. */
  ghost predicate Pair(t: Sql.Tables, chat: Id, a: Id, b: Id)
  {
    && a != b
    && (forall u :: (chat, u) in t.members <==> u == a || u == b)
    && t.members[(chat, a)].role.Member? && t.members[(chat, b)].role.Member?
  }

  ghost predicate DirectSound(t: Sql.Tables, chat: Id)
  {
    IsDirect(t, chat) ==> Sql.Live(t, chat) && exists a, b :: Pair(t, chat, a, b)
  }

  /** No two direct chats join the same two users. */
  ghost predicate DirectUnique(t: Sql.Tables)
  {
    forall c, d, u, v :: u != v && Sql.DirectBetween(t, c, u, v) && Sql.DirectBetween(t, d, u, v) ==> c == d
  }

  ghost predicate Inv(t: Sql.Tables)
  {
    && KeysHold(t)
    && (forall c :: Owned(t, c))
    && (forall c :: DirectSound(t, c))
    && DirectUnique(t)
  }

  /** Kind, liveness and members of a chat are the same. */
  ghost predicate SameChat(t: Sql.Tables, s: Sql.Tables, c: Id)
  {
    && (c in t.chats <==> c in s.chats)
    && (c in t.chats ==> t.chats[c].kind == s.chats[c].kind)
    && (Sql.Live(t, c) <==> Sql.Live(s, c))
    && forall u :: ((c, u) in t.members <==> (c, u) in s.members) &&
                   ((c, u) in t.members ==> t.members[(c, u)] == s.members[(c, u)])
  }

  ghost predicate OthersSame(t: Sql.Tables, s: Sql.Tables, chat: Id)
  {
    forall c :: c != chat ==> SameChat(t, s, c)
  }

  /** A change confined to one chat that is not a direct chat keeps the invariant when it
      leaves that chat owned. */
  lemma GroupChangeKeeps(t: Sql.Tables, s: Sql.Tables, chat: Id)
    requires Inv(t) && KeysHold(s) && OthersSame(t, s, chat)
    requires !IsDirect(s, chat) && !IsDirect(t, chat) && Owned(s, chat)
    ensures Inv(s)
    ensures forall c :: IsDirect(t, c) ==> SameChat(t, s, c)
  {
    forall c: Id
      ensures Owned(s, c)
    {
      if c != chat {
        assert SameChat(t, s, c) && Owned(t, c);
        if LiveGroup(s, c) {
          var u: Id :| IsOwner(t, c, u);
          assert IsOwner(s, c, u);
        }
      }
    }
    DirectFollows(t, s, chat);
  }

  lemma DirectFollows(t: Sql.Tables, s: Sql.Tables, chat: Id)
    requires (forall c :: DirectSound(t, c)) && DirectUnique(t) && OthersSame(t, s, chat)
    requires !IsDirect(s, chat) && !IsDirect(t, chat)
    ensures (forall c :: DirectSound(s, c)) && DirectUnique(s)
  {
    forall c: Id
      ensures DirectSound(s, c)
    {
      assert DirectSound(t, c);
      if IsDirect(s, c) {
        assert SameChat(t, s, c);
        var a: Id, b: Id :| Pair(t, c, a, b);
        assert (c, a) in t.members && (c, b) in t.members;
        assert Pair(s, c, a, b);
      }
    }
    forall c: Id, d: Id, u: Id, v: Id | u != v && Sql.DirectBetween(s, c, u, v) && Sql.DirectBetween(s, d, u, v)
      ensures c == d
    {
      assert SameChat(t, s, c) && SameChat(t, s, d);
      assert Sql.DirectBetween(t, c, u, v) && Sql.DirectBetween(t, d, u, v);
    }
  }

  /** What a successful creation leaves: the chat, and exactly the listed members. */
  lemma Created(t: Sql.Tables, chat: Chat, ms: seq<ChatMember>)
    requires KeysHold(t) && Sql.CreateWithMembers(t, chat, ms).Ok?
    requires forall i :: 0 <= i < |ms| ==> ms[i].chat == chat.id
    ensures var s := Sql.CreateWithMembers(t, chat, ms).value;
            && KeysHold(s) && OthersSame(t, s, chat.id)
            && chat.id !in t.chats && chat.id in s.chats && s.chats[chat.id] == chat && s.deleted == t.deleted
            && s.users == t.users
            && (forall u :: (chat.id, u) in s.members ==> exists i :: 0 <= i < |ms| && ms[i].user == u)
            && (forall i :: 0 <= i < |ms| ==> Sql.Inserted(s, ms[i]))
  {
    var t0 := t.(chats := t.chats[chat.id := chat]);
    var s := Sql.InsertMembers(t0, ms).value;
    Sql.InsertMembersAdds(t0, ms);
    forall k | k in s.members && k !in t.members
      ensures k.0 == chat.id && exists i :: 0 <= i < |ms| && ms[i].user == k.1
    {
      var i :| 0 <= i < |ms| && k == (ms[i].chat, ms[i].user);
    }
    forall k | k in s.members
      ensures k.0 in s.chats && k.1 in s.users
    {
      if k !in t.members {
        var i :| 0 <= i < |ms| && k == (ms[i].chat, ms[i].user);
        assert Sql.Inserted(s, ms[i]);
      }
    }
  }

  // ---- One use case, with any faults ----

  /** What holds of the tables after any repository call: the invariant, and every direct chat
      as it was. */
  ghost predicate Kept(t: Sql.Tables, s: Sql.Tables)
  {
    Inv(s) && forall c :: IsDirect(t, c) ==> SameChat(t, s, c)
  }

  ghost predicate AllKept(t: Sql.Tables, trail: seq<Sql.Tables>)
  {
    forall i :: 0 <= i < |trail| ==> Kept(t, trail[i])
  }

  lemma OwnerOf(t: Sql.Tables, chat: Id) returns (u: Id)
    requires Owned(t, chat) && LiveGroup(t, chat)
    ensures IsOwner(t, chat, u)
  {
    u :| IsOwner(t, chat, u);
  }

  lemma CreateDirectKeeps(t: Sql.Tables, f: Faults, caller: Id, target: Id, newId: Id, now: int)
    requires Inv(t)
    ensures AllKept(t, CreateDirect(t, f, caller, target, newId, now).trail)
  {
    var chat, ms := NewDirect(caller, newId, now), DirectMembers(caller, target, newId, now);
    var w := Sql.CreateWithMembers(t, chat, ms);
    if w.Ok? && target != caller && Sql.GetDirectChat(t, caller, target).Err? {
      var s := w.value;
      Created(t, chat, ms);
      assert Sql.Inserted(s, ms[0]) && Sql.Inserted(s, ms[1]);
      assert forall u :: (newId, u) in s.members <==> u == caller || u == target;
      assert Pair(s, newId, caller, target);
      forall c: Id
        ensures DirectSound(s, c) && Owned(s, c)
      {
        assert DirectSound(t, c) && Owned(t, c);
        if c != newId {
          assert SameChat(t, s, c);
          if LiveGroup(s, c) {
            var u := OwnerOf(t, c);
            assert IsOwner(s, c, u);
          }
          if IsDirect(s, c) {
            var a: Id, b: Id :| Pair(t, c, a, b);
            assert (c, a) in t.members && (c, b) in t.members;
            assert Pair(s, c, a, b);
          }
        }
      }
      forall c: Id, d: Id, u: Id, v: Id | u != v && Sql.DirectBetween(s, c, u, v) && Sql.DirectBetween(s, d, u, v)
        ensures c == d
      {
        BetweenBefore(t, s, newId, caller, target, c, u, v);
        BetweenBefore(t, s, newId, caller, target, d, u, v);
      }
      assert Kept(t, s);
    }
    assert Kept(t, t);
  }

  /** Other direct chats join the users they joined; the new one joins its own two. */
  lemma BetweenBefore(t: Sql.Tables, s: Sql.Tables, newId: Id, a: Id, b: Id, c: Id, u: Id, v: Id)
    requires OthersSame(t, s, newId) && Pair(s, newId, a, b)
    requires u != v && Sql.DirectBetween(s, c, u, v)
    ensures if c == newId then (u == a && v == b) || (u == b && v == a) else Sql.DirectBetween(t, c, u, v)
    ensures Sql.DirectBetween(t, c, u, v) ==> Sql.DirectBetween(t, c, v, u)
  {
    assert c != newId ==> SameChat(t, s, c);
  }

  lemma CreateGroupKeeps(t: Sql.Tables, f: Faults, caller: Id, name: string, description: string,
                         ids: seq<Id>, newId: Id, now: int)
    requires Inv(t)
    ensures AllKept(t, CreateGroup(t, f, caller, name, description, ids, newId, now).trail)
  {
    var chat, ms := NewGroup(caller, name, description, newId, now), GroupMembers(caller, ids, newId, now);
    var w := Sql.CreateWithMembers(t, chat, ms);
    if w.Ok? {
      var s := w.value;
      Created(t, chat, ms);
      assert Sql.Inserted(s, ms[0]);
      assert IsOwner(s, newId, caller);
      GroupChangeKeeps(t, s, newId);
      assert Kept(t, s);
    }
    assert Kept(t, t);
  }

  lemma UpdateGroupKeeps(t: Sql.Tables, c: Chat)
    requires Inv(t) && Sql.Update(t, c).Ok? && !IsDirect(t, c.id)
    ensures Kept(t, Sql.Update(t, c).value)
  {
    var s := Sql.Update(t, c).value;
    if LiveGroup(t, c.id) {
      assert Owned(t, c.id);
      var u := OwnerOf(t, c.id);
      assert IsOwner(s, c.id, u);
    }
    GroupChangeKeeps(t, s, c.id);
  }

  lemma AddMemberKeeps(t: Sql.Tables, m: ChatMember)
    requires Inv(t) && Sql.AddMember(t, m).Ok? && !IsDirect(t, m.chat)
    ensures Kept(t, Sql.AddMember(t, m).value)
  {
    var s := Sql.AddMember(t, m).value;
    if LiveGroup(t, m.chat) {
      assert Owned(t, m.chat);
      var u := OwnerOf(t, m.chat);
      assert IsOwner(s, m.chat, u);
    }
    GroupChangeKeeps(t, s, m.chat);
  }

  /** Removing a member keeps the group owned if another owner stays. */
  lemma RemoveMemberKeeps(t: Sql.Tables, chat: Id, user: Id, stays: Id)
    requires Inv(t) && Sql.RemoveMember(t, chat, user).Ok? && !IsDirect(t, chat)
    requires IsOwner(t, chat, stays) && stays != user
    ensures Kept(t, Sql.RemoveMember(t, chat, user).value)
  {
    var s := Sql.RemoveMember(t, chat, user).value;
    assert IsOwner(s, chat, stays);
    GroupChangeKeeps(t, s, chat);
  }

  /** A role update keeps the group owned if it makes an owner, or another owner stays. */
  lemma RoleKeeps(t: Sql.Tables, chat: Id, user: Id, role: Role, stays: Id)
    requires Inv(t) && Sql.UpdateMemberRole(t, chat, user, role).Ok? && !IsDirect(t, chat)
    requires (IsOwner(t, chat, stays) && stays != user) || (role.Owner? && stays == user)
    ensures Kept(t, Sql.UpdateMemberRole(t, chat, user, role).value)
  {
    var s := Sql.UpdateMemberRole(t, chat, user, role).value;
    assert IsOwner(s, chat, stays);
    GroupChangeKeeps(t, s, chat);
  }

  lemma ManagersActOnGroups(t: Sql.Tables, f: Faults, chat: Id, caller: Id)
    requires GroupCaller(t, f, chat, caller).Ok?
    ensures LiveGroup(t, chat) && (chat, caller) in t.members
    ensures GroupCaller(t, f, chat, caller).value == (t.chats[chat], t.members[(chat, caller)])
  {
  }

  lemma NoOwnerInDirect(t: Sql.Tables, chat: Id, user: Id)
    requires Inv(t)
    ensures IsDirect(t, chat) ==> !IsOwner(t, chat, user)
  {
    assert DirectSound(t, chat);
    if IsDirect(t, chat) {
      var a: Id, b: Id :| Pair(t, chat, a, b);
      assert (chat, user) in t.members ==> user == a || user == b;
    }
  }

  /** Between the two writes of a hand-over the group has two owners, never none. */
  lemma HandOverKeeps(t: Sql.Tables, first: Fault, second: Fault, chat: Id, leaver: Id, heir: Id)
    requires Inv(t) && !IsDirect(t, chat) && heir != leaver
    ensures AllKept(t, HandOver(t, first, second, chat, leaver, heir).trail)
  {
    assert Kept(t, t);
    var w := Sql.UpdateMemberRole(t, chat, heir, Owner);
    if w.Ok? {
      var t1 := w.value;
      RoleKeeps(t, chat, heir, Owner, heir);
      var w1 := Sql.RemoveMember(t1, chat, leaver);
      if w1.Ok? {
        assert IsOwner(t1, chat, heir);
        RemoveMemberKeeps(t1, chat, leaver, heir);
        SameChatTransitive(t, t1, w1.value);
      }
    }
  }

  lemma PlainDepartureKeeps(t: Sql.Tables, f: Fault, chat: Id, caller: Id)
    requires Inv(t) && LiveGroup(t, chat) && !IsOwner(t, chat, caller)
    ensures AllKept(t, WriteAndReply(f, t, Sql.RemoveMember(t, chat, caller), Done).trail)
  {
    assert Kept(t, t) && Owned(t, chat);
    var owner := OwnerOf(t, chat);
    if Sql.RemoveMember(t, chat, caller).Ok? { RemoveMemberKeeps(t, chat, caller, owner); }
  }

  lemma DeletionKeeps(t: Sql.Tables, f: Fault, chat: Id)
    requires Inv(t) && LiveGroup(t, chat)
    ensures AllKept(t, WriteAndReply(f, t, Ok(Sql.Delete(t, chat)), Done).trail)
  {
    assert Kept(t, t);
    GroupChangeKeeps(t, Sql.Delete(t, chat), chat);
  }

  /** The three ways a departure writes. */
  lemma LeaveTrail(t: Sql.Tables, f: Faults, chat: Id, caller: Id) returns (heir: Id)
    ensures heir != caller
    ensures var trail := LeaveChat(t, f, chat, caller).trail;
            trail == [] ||
            (LiveGroup(t, chat) &&
             if !IsOwner(t, chat, caller) then
               trail == WriteAndReply(f(2), t, Sql.RemoveMember(t, chat, caller), Done).trail
             else if HasOther(Sql.GetMembers(t, chat), caller) then
               trail == HandOver(t, f(3), f(4), chat, caller, heir).trail
             else
               trail == WriteAndReply(f(3), t, Ok(Sql.Delete(t, chat)), Done).trail)
  {
    heir := if caller == NIL then 1 else NIL;
    if GroupCaller(t, f, chat, caller).Ok? {
      ManagersActOnGroups(t, f, chat, caller);
      var members := Sql.GetMembers(t, chat);
      var i := NextOwnerIsSuccessor(members, caller);
      if HasOther(members, caller) { heir := members[i].user; }
    }
  }

  lemma LeaveChatKeeps(t: Sql.Tables, f: Faults, chat: Id, caller: Id)
    requires Inv(t)
    ensures AllKept(t, LeaveChat(t, f, chat, caller).trail)
  {
    var heir := LeaveTrail(t, f, chat, caller);
    if LeaveChat(t, f, chat, caller).trail != [] {
      if !IsOwner(t, chat, caller) {
        PlainDepartureKeeps(t, f(2), chat, caller);
      } else if HasOther(Sql.GetMembers(t, chat), caller) {
        HandOverKeeps(t, f(3), f(4), chat, caller, heir);
      } else {
        DeletionKeeps(t, f(3), chat);
      }
    }
  }

  lemma SameChatTransitive(t: Sql.Tables, t1: Sql.Tables, t2: Sql.Tables)
    requires Kept(t, t1) && Kept(t1, t2)
    ensures Kept(t, t2)
  {
    forall c: Id | IsDirect(t, c)
      ensures SameChat(t, t2, c)
    {
      assert SameChat(t, t1, c);
      assert IsDirect(t1, c);
      assert SameChat(t1, t2, c);
    }
  }

  lemma UpdateGroupOpKeeps(t: Sql.Tables, f: Faults, chat: Id, caller: Id, name: Option<string>,
                           description: Option<string>, avatarUrl: Option<string>, now: int)
    requires Inv(t)
    ensures AllKept(t, UpdateGroup(t, f, chat, caller, name, description, avatarUrl, now).trail)
  {
    assert Kept(t, t);
    var m := ManagedGroup(t, f, chat, caller);
    if m.Ok? {
      ManagersActOnGroups(t, f, chat, caller);
      var c := Patched(m.value.0, name, description, avatarUrl, now);
      if Sql.Update(t, c).Ok? { UpdateGroupKeeps(t, c); }
    }
  }

  lemma AddMemberOpKeeps(t: Sql.Tables, f: Faults, chat: Id, caller: Id, user: Id, now: int)
    requires Inv(t)
    ensures AllKept(t, AddMember(t, f, chat, caller, user, now).trail)
  {
    assert Kept(t, t);
    if MayAdd(t, f, chat, caller, user).Ok? {
      ManagersActOnGroups(t, f, chat, caller);
      var m := ChatMember(chat, user, Membership(Member, now), false);
      if Sql.AddMember(t, m).Ok? { AddMemberKeeps(t, m); }
    }
  }

  lemma RemoveMemberOpKeeps(t: Sql.Tables, f: Faults, chat: Id, caller: Id, user: Id)
    requires Inv(t)
    ensures AllKept(t, RemoveMember(t, f, chat, caller, user).trail)
  {
    assert Kept(t, t);
    if MayRemove(t, f, chat, caller, user).Ok? {
      ManagersActOnGroups(t, f, chat, caller);
      assert Owned(t, chat);
      var owner := OwnerOf(t, chat);
      if Sql.RemoveMember(t, chat, user).Ok? { RemoveMemberKeeps(t, chat, user, owner); }
    }
  }

  lemma ChangeRoleOpKeeps(t: Sql.Tables, f: Faults, chat: Id, caller: Id, user: Id, role: string)
    requires Inv(t)
    ensures AllKept(t, ChangeMemberRole(t, f, chat, caller, user, role).trail)
  {
    assert Kept(t, t);
    if MayChangeRole(t, f, chat, caller, user).Ok? && ParseRole(role).Some? {
      assert IsOwner(t, chat, caller);
      NoOwnerInDirect(t, chat, caller);
      if Sql.UpdateMemberRole(t, chat, user, ParseRole(role).value).Ok? {
        RoleKeeps(t, chat, user, ParseRole(role).value, caller);
      }
    }
  }

  lemma ExecKeeps(t: Sql.Tables, f: Faults, op: Op)
    requires Inv(t)
    ensures AllKept(t, Exec(t, f, op).trail)
  {
    match op
    case CreateDirectOp(caller, target, newId, now) => CreateDirectKeeps(t, f, caller, target, newId, now);
    case CreateGroupOp(caller, name, description, ids, newId, now) =>
      CreateGroupKeeps(t, f, caller, name, description, ids, newId, now);
    case GetChatOp(_, _) =>
    case ListMembersOp(_, _) =>
    case UpdateGroupOp(chat, caller, name, description, avatarUrl, now) =>
      UpdateGroupOpKeeps(t, f, chat, caller, name, description, avatarUrl, now);
    case AddMemberOp(chat, caller, user, now) => AddMemberOpKeeps(t, f, chat, caller, user, now);
    case RemoveMemberOp(chat, caller, user) => RemoveMemberOpKeeps(t, f, chat, caller, user);
    case ChangeMemberRoleOp(chat, caller, user, role) => ChangeRoleOpKeeps(t, f, chat, caller, user, role);
    case LeaveChatOp(chat, caller) => LeaveChatKeeps(t, f, chat, caller);
    case RegisterUser(user) => RegisterKeeps(t, user);
  }

  lemma RegisterKeeps(t: Sql.Tables, user: Id)
    requires Inv(t)
    ensures Kept(t, t.(users := t.users + {user}))
  {
    var s := t.(users := t.users + {user});
    forall c: Id
      ensures SameChat(t, s, c) && Owned(s, c) && DirectSound(s, c)
    {
      assert Owned(t, c) && DirectSound(t, c);
      if LiveGroup(s, c) {
        var u := OwnerOf(t, c);
        assert IsOwner(s, c, u);
      }
      if IsDirect(s, c) {
        var a: Id, b: Id :| Pair(t, c, a, b);
        assert (c, a) in t.members && (c, b) in t.members;
        assert Pair(s, c, a, b);
      }
    }
    forall c: Id, d: Id, u: Id, v: Id | u != v && Sql.DirectBetween(s, c, u, v) && Sql.DirectBetween(s, d, u, v)
      ensures c == d
    {
      assert Sql.DirectBetween(t, c, u, v) && Sql.DirectBetween(t, d, u, v);
    }
  }

  // ---- Whole runs, any repository call of which may fail ----

  datatype Call = Call(op: Op, faults: Faults)

  ghost predicate Start(t: Sql.Tables)
  {
    t.chats == map[] && t.members == map[] && t.deleted == {}
  }

  function Run(t: Sql.Tables, calls: seq<Call>): Sql.Tables
    decreases |calls|
  {
    if calls == [] then t
    else Run(Exec(t, calls[0].faults, calls[0].op).Final(t), calls[1..])
  }

  lemma {:induction false} RunKeeps(t: Sql.Tables, calls: seq<Call>)
    requires Inv(t)
    ensures Kept(t, Run(t, calls))
    decreases |calls|
  {
    assert Kept(t, t);
    if calls != [] {
      var t' := Exec(t, calls[0].faults, calls[0].op).Final(t);
      ExecKeeps(t, calls[0].faults, calls[0].op);
      RunKeeps(t', calls[1..]);
      SameChatTransitive(t, t', Run(t', calls[1..]));
    }
  }

  /** After any repository call of any run, every live group has an owner. */
  lemma OwnedAtEveryBoundary(t: Sql.Tables, calls: seq<Call>, last: Call, i: nat, chat: Id)
    requires Start(t)
    requires i < |Exec(Run(t, calls), last.faults, last.op).trail|
    requires LiveGroup(Exec(Run(t, calls), last.faults, last.op).trail[i], chat)
    ensures exists u :: IsOwner(Exec(Run(t, calls), last.faults, last.op).trail[i], chat, u)
  {
    assert Inv(t);
    RunKeeps(t, calls);
    ExecKeeps(Run(t, calls), last.faults, last.op);
    var s := Exec(Run(t, calls), last.faults, last.op).trail[i];
    assert Kept(Run(t, calls), s) && Owned(s, chat);
  }

  /** A direct chat is never deleted and keeps its two members, both with role member,
      through every run. */
  lemma DirectChatsNeverChange(t: Sql.Tables, before: seq<Call>, after: seq<Call>, chat: Id)
    requires Start(t) && IsDirect(Run(t, before), chat)
    ensures var s, s' := Run(t, before), Run(Run(t, before), after);
            Sql.Live(s', chat) && exists a, b :: Pair(s, chat, a, b) && Pair(s', chat, a, b)
  {
    assert Inv(t);
    RunKeeps(t, before);
    var s := Run(t, before);
    RunKeeps(s, after);
    var s' := Run(s, after);
    assert DirectSound(s, chat) && SameChat(s, s', chat);
    var a: Id, b: Id :| Pair(s, chat, a, b);
    assert (chat, a) in s.members && (chat, b) in s.members;
    assert Pair(s', chat, a, b);
  }

  /** No two users ever have two direct chats. */
  lemma OneDirectChatPerPair(t: Sql.Tables, calls: seq<Call>, c: Id, d: Id, u: Id, v: Id)
    requires Start(t) && u != v
    requires Sql.DirectBetween(Run(t, calls), c, u, v) && Sql.DirectBetween(Run(t, calls), d, v, u)
    ensures c == d
  {
    assert Inv(t);
    RunKeeps(t, calls);
    assert Sql.DirectBetween(Run(t, calls), d, u, v);
  }

  lemma FoundDirect(t: Sql.Tables, c: Id, u: Id, v: Id)
    requires Inv(t) && u != v && Sql.DirectBetween(t, c, u, v)
    ensures Sql.GetDirectChat(t, u, v) == Ok(t.chats[c])
  {
    assert Sql.GetDirectChat(t, u, v).Ok?;
  }

  /** Creating a direct chat again, from either side, finds the one created and writes nothing. */
  lemma CreateDirectIdempotentSymmetric(t: Sql.Tables, calls: seq<Call>, caller: Id, target: Id,
                                        id1: Id, now1: int, id2: Id, now2: int)
    requires Start(t) && caller != NIL
    requires CreateDirect(Run(t, calls), NoFaults(), caller, target, id1, now1).result.Ok?
    ensures var first := CreateDirect(Run(t, calls), NoFaults(), caller, target, id1, now1);
            var s := first.Final(Run(t, calls));
            var again := Outcome(Ok(ChatReply(first.result.value.chat, false)), []);
            && CreateDirect(s, NoFaults(), caller, target, id2, now2) == again
            && CreateDirect(s, NoFaults(), target, caller, id2, now2) == again
  {
    assert Inv(t);
    RunKeeps(t, calls);
    var t1 := Run(t, calls);
    var first := CreateDirect(t1, NoFaults(), caller, target, id1, now1);
    var s, chat := first.Final(t1), first.result.value.chat;
    CreateDirectKeeps(t1, NoFaults(), caller, target, id1, now1);
    assert Kept(t1, t1) && Inv(s);
    if first.result.value.created {
      var ms := DirectMembers(caller, target, id1, now1);
      Created(t1, NewDirect(caller, id1, now1), ms);
      assert Sql.Inserted(s, ms[0]) && Sql.Inserted(s, ms[1]);
      assert Sql.DirectBetween(s, id1, caller, target);
    } else {
      var c: Id :| Sql.DirectBetween(t1, c, caller, target) && chat == t1.chats[c];
    }
    assert Sql.DirectBetween(s, chat.id, target, caller) && s.chats[chat.id] == chat;
    FoundDirect(s, chat.id, caller, target);
    FoundDirect(s, chat.id, target, caller);
  }

  // ---- When a group goes ----

  lemma AloneInList(t: Sql.Tables, chat: Id, user: Id)
    requires KeysHold(t) && !HasOther(Sql.GetMembers(t, chat), user)
    ensures forall u :: (chat, u) in t.members ==> u == user
  {
    MembersListed(t, chat);
    var ms := Sql.GetMembers(t, chat);
    forall u: Id | (chat, u) in t.members
      ensures u == user
    {
      assert (chat, u).0 in t.chats && (chat, u).1 in t.users;
      var i :| 0 <= i < |ms| && ms[i].user == u;
      assert !Other(ms, i, user);
    }
  }

  lemma HandOverNeverDeletes(t: Sql.Tables, first: Fault, second: Fault, chat: Id, leaver: Id, heir: Id, i: nat)
    requires i < |HandOver(t, first, second, chat, leaver, heir).trail|
    ensures HandOver(t, first, second, chat, leaver, heir).trail[i].chats == t.chats
    ensures HandOver(t, first, second, chat, leaver, heir).trail[i].deleted == t.deleted
  {
  }

  lemma LeaveDeletesAlone(t: Sql.Tables, f: Faults, c: Id, caller: Id, i: nat, chat: Id)
    requires Inv(t) && i < |LeaveChat(t, f, c, caller).trail|
    requires LiveGroup(t, chat) && !LiveGroup(LeaveChat(t, f, c, caller).trail[i], chat)
    ensures c == chat && IsOwner(t, chat, caller)
    ensures forall u :: (chat, u) in t.members <==> u == caller
  {
    var heir := LeaveTrail(t, f, c, caller);
    if IsOwner(t, c, caller) {
      if HasOther(Sql.GetMembers(t, c), caller) {
        HandOverNeverDeletes(t, f(3), f(4), c, caller, heir, i);
      } else {
        AloneInList(t, c, caller);
      }
    }
  }

  lemma OthersNeverDelete(t: Sql.Tables, f: Faults, op: Op, i: nat, chat: Id)
    requires Inv(t) && !op.LeaveChatOp? && i < |Exec(t, f, op).trail|
    requires LiveGroup(t, chat)
    ensures LiveGroup(Exec(t, f, op).trail[i], chat)
  {
    match op
    case CreateDirectOp(caller, target, newId, now) =>
      CreationKeepsLive(t, NewDirect(caller, newId, now), DirectMembers(caller, target, newId, now), chat);
    case CreateGroupOp(caller, name, description, ids, newId, now) =>
      CreationKeepsLive(t, NewGroup(caller, name, description, newId, now),
                        GroupMembers(caller, ids, newId, now), chat);
    case _ =>
  }

  /** A group is deleted only by its owner leaving it when nobody else is in it. */
  lemma DeletedOnlyWhenAlone(t: Sql.Tables, calls: seq<Call>, last: Call, i: nat, chat: Id)
    requires Start(t) && i < |Exec(Run(t, calls), last.faults, last.op).trail|
    requires LiveGroup(Run(t, calls), chat)
    requires !LiveGroup(Exec(Run(t, calls), last.faults, last.op).trail[i], chat)
    ensures last.op.LeaveChatOp? && last.op.chat == chat
    ensures forall u :: (chat, u) in Run(t, calls).members <==> u == last.op.caller
    ensures IsOwner(Run(t, calls), chat, last.op.caller)
  {
    assert Inv(t);
    RunKeeps(t, calls);
    match last.op
    case LeaveChatOp(c, caller) => LeaveDeletesAlone(Run(t, calls), last.faults, c, caller, i, chat);
    case _ => OthersNeverDelete(Run(t, calls), last.faults, last.op, i, chat); assert false;
  }

  lemma CreationKeepsLive(t: Sql.Tables, chat: Chat, ms: seq<ChatMember>, c: Id)
    requires KeysHold(t) && LiveGroup(t, c)
    requires forall i :: 0 <= i < |ms| ==> ms[i].chat == chat.id
    ensures Sql.CreateWithMembers(t, chat, ms).Ok? ==> LiveGroup(Sql.CreateWithMembers(t, chat, ms).value, c)
  {
    if Sql.CreateWithMembers(t, chat, ms).Ok? {
      Created(t, chat, ms);
      assert c != chat.id;
      assert SameChat(t, Sql.CreateWithMembers(t, chat, ms).value, c);
    }
  }
}
