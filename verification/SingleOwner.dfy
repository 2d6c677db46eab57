/** Exactly one owner: what keeps it, and the one failure of all use cases that loses it. */
module SingleOwner {
  import opened Wrappers
  import opened Domain
  import opened ChatUseCases
  import opened Ownership
  import Sql = ChatTables

  ghost predicate Sole(t: Sql.Tables, chat: Id, u: Id)
  {
    IsOwner(t, chat, u) && forall v :: IsOwner(t, chat, v) ==> v == u
  }

  ghost predicate OneOwner(t: Sql.Tables, chat: Id)
  {
    exists u :: Sole(t, chat, u)
  }

  ghost predicate Single(t: Sql.Tables)
  {
    forall c :: LiveGroup(t, c) ==> OneOwner(t, c)
  }

  lemma SoleFollows(t: Sql.Tables, s: Sql.Tables, c: Id, u: Id)
    requires SameChat(t, s, c)
    ensures Sole(t, c, u) <==> Sole(s, c, u)
  {
    assert forall v :: IsOwner(t, c, v) <==> IsOwner(s, c, v);
  }

  lemma SingleFollows(t: Sql.Tables, s: Sql.Tables, chat: Id)
    requires Single(t) && OthersSame(t, s, chat)
    requires LiveGroup(s, chat) ==> OneOwner(s, chat)
    ensures Single(s)
  {
    forall c: Id | LiveGroup(s, c)
      ensures OneOwner(s, c)
    {
      if c != chat {
        assert SameChat(t, s, c) && LiveGroup(t, c);
        var u: Id :| Sole(t, c, u);
        SoleFollows(t, s, c, u);
      }
    }
  }

  lemma CreationSingle(t: Sql.Tables, chat: Chat, ms: seq<ChatMember>)
    requires Inv(t) && Single(t) && Sql.CreateWithMembers(t, chat, ms).Ok?
    requires forall i :: 0 <= i < |ms| ==> ms[i].chat == chat.id
    requires chat.kind.Group? ==> ms != [] && ms[0].membership.role.Owner?
    requires chat.kind.Group? ==> forall i :: 1 <= i < |ms| ==> !ms[i].membership.role.Owner?
    ensures Single(Sql.CreateWithMembers(t, chat, ms).value)
  {
    Created(t, chat, ms);
    var s := Sql.CreateWithMembers(t, chat, ms).value;
    if chat.kind.Group? {
      assert Sql.Inserted(s, ms[0]);
      forall v: Id | IsOwner(s, chat.id, v)
        ensures v == ms[0].user
      {
        var i :| 0 <= i < |ms| && ms[i].user == v;
        assert Sql.Inserted(s, ms[i]);
      }
      assert Sole(s, chat.id, ms[0].user);
    }
    SingleFollows(t, s, chat.id);
  }

  /** A write that adds no owner to the chat and takes none away. */
  lemma SameOwnersSingle(t: Sql.Tables, s: Sql.Tables, chat: Id)
    requires Single(t) && OthersSame(t, s, chat) && (LiveGroup(s, chat) ==> LiveGroup(t, chat))
    requires forall v :: IsOwner(t, chat, v) <==> IsOwner(s, chat, v)
    ensures Single(s)
  {
    if LiveGroup(s, chat) {
      var u: Id :| Sole(t, chat, u);
      assert Sole(s, chat, u);
    }
    SingleFollows(t, s, chat);
  }

  /** The whole hand-over: the heir is the new sole owner, the leaver is gone, and nobody
      else's membership changes. */
  lemma HandOverDone(t: Sql.Tables, first: Fault, second: Fault, chat: Id, leaver: Id, heir: Id)
    requires Sole(t, chat, leaver) && (chat, heir) in t.members && heir != leaver
    requires first.Works? && !second.Fails?
    ensures var s := HandOver(t, first, second, chat, leaver, heir).Final(t);
            && Sole(s, chat, heir) && (chat, leaver) !in s.members
            && s.members[(chat, heir)] == t.members[(chat, heir)].(role := Owner)
            && (forall u :: u != heir && u != leaver ==>
                 ((chat, u) in t.members <==> (chat, u) in s.members) &&
                 ((chat, u) in t.members ==> s.members[(chat, u)] == t.members[(chat, u)]))
            && OthersSame(t, s, chat)
            && s.deleted == t.deleted && s.chats == t.chats && s.users == t.users
  {
    assert !IsOwner(t, chat, heir);
    var s := HandOver(t, first, second, chat, leaver, heir).Final(t);
    assert IsOwner(s, chat, heir);
    forall v: Id | IsOwner(s, chat, v)
      ensures v == heir
    {
      assert v != heir ==> IsOwner(t, chat, v);
    }
  }

  /** What leaving amounts to for an owner whose reads succeed. */
  lemma LeaveByOwner(t: Sql.Tables, f: Faults, chat: Id, caller: Id) returns (i: int)
    requires KeysHold(t) && LiveGroup(t, chat) && IsOwner(t, chat, caller)
    requires f(0).Works? && f(1).Works? && f(2).Works?
    ensures var members, out := Sql.GetMembers(t, chat), LeaveChat(t, f, chat, caller);
            if HasOther(members, caller)
            then Successor(members, caller, i) && Other(members, i, caller) &&
                 (chat, members[i].user) in t.members &&
                 out == HandOver(t, f(3), f(4), chat, caller, members[i].user)
            else out == WriteAndReply(f(3), t, Ok(Sql.Delete(t, chat)), Done)
  {
    assert (chat, caller).1 in t.users;
    i := NextOwnerIsSuccessor(Sql.GetMembers(t, chat), caller);
  }

  /** A departure that is not an owner's is one removal, or nothing. */
  lemma LeaveOtherwise(t: Sql.Tables, f: Faults, chat: Id, caller: Id)
    requires KeysHold(t) && LiveGroup(t, chat)
    requires !IsOwner(t, chat, caller) || !f(0).Works? || !f(1).Works? || !f(2).Works?
    ensures var s := LeaveChat(t, f, chat, caller).Final(t);
            && OthersSame(t, s, chat) && LiveGroup(s, chat)
            && forall v :: IsOwner(t, chat, v) <==> IsOwner(s, chat, v)
  {
  }

  lemma LeaveNowhere(t: Sql.Tables, f: Faults, chat: Id, caller: Id)
    requires !LiveGroup(t, chat)
    ensures LeaveChat(t, f, chat, caller).Final(t) == t
  {
  }

  // ---- Leaving, with any failures ----

  /** The promotion took effect and the removal did not. */
  predicate Interrupted(f: Faults)
  {
    f(3).Unacknowledged? || (f(3).Works? && f(4).Fails?)
  }

  lemma HandOverOneOwnerIff(t: Sql.Tables, first: Fault, second: Fault, chat: Id, leaver: Id, heir: Id)
    requires LiveGroup(t, chat) && Sole(t, chat, leaver) && (chat, heir) in t.members && heir != leaver
    ensures var s := HandOver(t, first, second, chat, leaver, heir).Final(t);
            && LiveGroup(s, chat) && OthersSame(t, s, chat)
            && (OneOwner(s, chat) <==> !(first.Unacknowledged? || (first.Works? && second.Fails?)))
  {
    assert !IsOwner(t, chat, heir);
    var s := HandOver(t, first, second, chat, leaver, heir).Final(t);
    if first.Fails? {
      assert Sole(s, chat, leaver);
    } else if first.Unacknowledged? || second.Fails? {
      assert IsOwner(s, chat, leaver) && IsOwner(s, chat, heir);
    } else {
      HandOverDone(t, first, second, chat, leaver, heir);
    }
  }

  /** An owner with an heir leaves, and gets no further than the promotion. */
  ghost predicate LeavesHalfWay(t: Sql.Tables, f: Faults, chat: Id, caller: Id)
  {
    && LiveGroup(t, chat) && IsOwner(t, chat, caller) && HasOther(Sql.GetMembers(t, chat), caller)
    && f(0).Works? && f(1).Works? && f(2).Works? && Interrupted(f)
  }

  /** Leaving a group with one owner leaves it with one owner, or deletes it, unless the leaver
      is that owner, has an heir, and the hand-over is interrupted between its two writes. */
  lemma LeaveKeepsOneOwnerIff(t: Sql.Tables, f: Faults, chat: Id, caller: Id)
    requires Inv(t) && LiveGroup(t, chat) && OneOwner(t, chat)
    ensures var s := LeaveChat(t, f, chat, caller).Final(t);
            && ((LiveGroup(s, chat) ==> OneOwner(s, chat)) <==> !LeavesHalfWay(t, f, chat, caller))
            && (LeavesHalfWay(t, f, chat, caller) ==> LiveGroup(s, chat))
            && OthersSame(t, s, chat)
  {
    var s := LeaveChat(t, f, chat, caller).Final(t);
    var owner: Id :| Sole(t, chat, owner);
    if IsOwner(t, chat, caller) && f(0).Works? && f(1).Works? && f(2).Works? {
      var i := LeaveByOwner(t, f, chat, caller);
      var members := Sql.GetMembers(t, chat);
      if HasOther(members, caller) {
        HandOverOneOwnerIff(t, f(3), f(4), chat, caller, members[i].user);
      } else if LiveGroup(s, chat) {
        assert Sole(s, chat, owner);
      }
    } else {
      LeaveOtherwise(t, f, chat, caller);
      assert Sole(s, chat, owner);
    }
  }

  lemma LeaveSingleIff(t: Sql.Tables, f: Faults, chat: Id, caller: Id)
    requires Inv(t) && Single(t)
    ensures Single(LeaveChat(t, f, chat, caller).Final(t)) <==> !LeavesHalfWay(t, f, chat, caller)
  {
    var s := LeaveChat(t, f, chat, caller).Final(t);
    if LiveGroup(t, chat) {
      LeaveKeepsOneOwnerIff(t, f, chat, caller);
      if !LeavesHalfWay(t, f, chat, caller) { SingleFollows(t, s, chat); }
    } else {
      LeaveNowhere(t, f, chat, caller);
    }
  }

  lemma CreateDirectSingle(t: Sql.Tables, f: Faults, caller: Id, target: Id, newId: Id, now: int)
    requires Inv(t) && Single(t)
    ensures Single(CreateDirect(t, f, caller, target, newId, now).Final(t))
  {
    var chat, ms := NewDirect(caller, newId, now), DirectMembers(caller, target, newId, now);
    if Sql.CreateWithMembers(t, chat, ms).Ok? { CreationSingle(t, chat, ms); }
  }

  lemma CreateGroupSingle(t: Sql.Tables, f: Faults, caller: Id, name: string, description: string, ids: seq<Id>,
                          newId: Id, now: int)
    requires Inv(t) && Single(t)
    ensures Single(CreateGroup(t, f, caller, name, description, ids, newId, now).Final(t))
  {
    var chat, ms := NewGroup(caller, name, description, newId, now), GroupMembers(caller, ids, newId, now);
    if Sql.CreateWithMembers(t, chat, ms).Ok? { CreationSingle(t, chat, ms); }
  }

  lemma UpdateGroupSingle(t: Sql.Tables, f: Faults, chat: Id, caller: Id, name: Option<string>,
                          description: Option<string>, avatarUrl: Option<string>, now: int)
    requires Inv(t) && Single(t)
    ensures Single(UpdateGroup(t, f, chat, caller, name, description, avatarUrl, now).Final(t))
  {
    SameOwnersSingle(t, UpdateGroup(t, f, chat, caller, name, description, avatarUrl, now).Final(t), chat);
  }

  lemma AddMemberSingle(t: Sql.Tables, f: Faults, chat: Id, caller: Id, user: Id, now: int)
    requires Inv(t) && Single(t)
    ensures Single(AddMember(t, f, chat, caller, user, now).Final(t))
  {
    SameOwnersSingle(t, AddMember(t, f, chat, caller, user, now).Final(t), chat);
  }

  lemma RemoveMemberSingle(t: Sql.Tables, f: Faults, chat: Id, caller: Id, user: Id)
    requires Inv(t) && Single(t)
    ensures Single(RemoveMember(t, f, chat, caller, user).Final(t))
  {
    SameOwnersSingle(t, RemoveMember(t, f, chat, caller, user).Final(t), chat);
  }

  lemma ChangeRoleSingle(t: Sql.Tables, f: Faults, chat: Id, caller: Id, user: Id, role: string)
    requires Inv(t) && Single(t)
    ensures Single(ChangeMemberRole(t, f, chat, caller, user, role).Final(t))
  {
    var s := ChangeMemberRole(t, f, chat, caller, user, role).Final(t);
    if s != t {
      assert IsOwner(t, chat, caller);
      if LiveGroup(t, chat) {
        var u: Id :| Sole(t, chat, u);
        assert u == caller;
        assert forall v :: IsOwner(t, chat, v) <==> IsOwner(s, chat, v);
        SameOwnersSingle(t, s, chat);
      } else {
        SingleFollows(t, s, chat);
      }
    }
  }

  /** From a state in which every live group has one owner, whatever use case comes and whatever
      repository calls fail: the only way to a state in which one has not is an owner's departure
      interrupted between its two writes. */
  lemma ExecSingleIff(t: Sql.Tables, f: Faults, op: Op)
    requires Inv(t) && Single(t)
    ensures Single(Exec(t, f, op).Final(t)) <==> !(op.LeaveChatOp? && LeavesHalfWay(t, f, op.chat, op.caller))
  {
    match op
    case CreateDirectOp(caller, target, newId, now) => CreateDirectSingle(t, f, caller, target, newId, now);
    case CreateGroupOp(caller, name, description, ids, newId, now) =>
      CreateGroupSingle(t, f, caller, name, description, ids, newId, now);
    case GetChatOp(_, _) =>
    case ListMembersOp(_, _) =>
    case UpdateGroupOp(chat, caller, name, description, avatarUrl, now) =>
      UpdateGroupSingle(t, f, chat, caller, name, description, avatarUrl, now);
    case AddMemberOp(chat, caller, user, now) => AddMemberSingle(t, f, chat, caller, user, now);
    case RemoveMemberOp(chat, caller, user) => RemoveMemberSingle(t, f, chat, caller, user);
    case ChangeMemberRoleOp(chat, caller, user, role) => ChangeRoleSingle(t, f, chat, caller, user, role);
    case LeaveChatOp(chat, caller) => LeaveSingleIff(t, f, chat, caller);
    case RegisterUser(user) => SameOwnersSingle(t, t.(users := t.users + {user}), user);
  }

  function Healthy(ops: seq<Op>): (r: seq<Call>)
    ensures |r| == |ops| && forall i :: 0 <= i < |ops| ==> r[i] == Call(ops[i], NoFaults())
  {
    seq(|ops|, i requires 0 <= i < |ops| => Call(ops[i], NoFaults()))
  }

  /** No call of the run is an owner's departure interrupted between its two writes. */
  ghost predicate NoneHalfWay(t: Sql.Tables, calls: seq<Call>)
    decreases |calls|
  {
    calls == [] ||
    var call := calls[0];
    !(call.op.LeaveChatOp? && LeavesHalfWay(t, call.faults, call.op.chat, call.op.caller)) &&
    NoneHalfWay(Exec(t, call.faults, call.op).Final(t), calls[1..])
  }

  /** Over every run, with whatever failures but those, live groups have one owner throughout. */
  lemma {:induction false} RunSingle(t: Sql.Tables, calls: seq<Call>)
    requires Inv(t) && Single(t) && NoneHalfWay(t, calls)
    ensures Single(Run(t, calls))
    decreases |calls|
  {
    if calls != [] {
      ExecKeeps(t, calls[0].faults, calls[0].op);
      ExecSingleIff(t, calls[0].faults, calls[0].op);
      assert Kept(t, t);
      RunSingle(Exec(t, calls[0].faults, calls[0].op).Final(t), calls[1..]);
    }
  }

  lemma {:induction false} HealthyNoneHalfWay(t: Sql.Tables, ops: seq<Op>)
    ensures NoneHalfWay(t, Healthy(ops))
    decreases |ops|
  {
    if ops != [] {
      assert Healthy(ops)[1..] == Healthy(ops[1..]);
      HealthyNoneHalfWay(Exec(t, NoFaults(), ops[0]).Final(t), ops[1..]);
    }
  }

  lemma HealthyKeeps(t: Sql.Tables, ops: seq<Op>)
    requires Start(t)
    ensures Inv(Run(t, Healthy(ops))) && Single(Run(t, Healthy(ops)))
  {
    assert Inv(t) && Single(t);
    HealthyNoneHalfWay(t, ops);
    RunKeeps(t, Healthy(ops));
    RunSingle(t, Healthy(ops));
  }

  /** In every state reached without failures, a live group has exactly one owner. */
  lemma ExactlyOneOwner(t: Sql.Tables, ops: seq<Op>, chat: Id)
    requires Start(t) && LiveGroup(Run(t, Healthy(ops)), chat)
    ensures exists u :: IsOwner(Run(t, Healthy(ops)), chat, u) &&
              forall v :: IsOwner(Run(t, Healthy(ops)), chat, v) ==> v == u
  {
    assert Inv(t) && Single(t);
    HealthyNoneHalfWay(t, ops);
    RunSingle(t, Healthy(ops));
    var u: Id :| Sole(Run(t, Healthy(ops)), chat, u);
  }

  /** What a completed departure of an owner leaves: the successor is the only owner, the leaver
      is gone, and everybody else's membership is as it was. */
  ghost predicate PassedOn(t: Sql.Tables, s: Sql.Tables, chat: Id, leaver: Id, heir: Id)
  {
    && LiveGroup(s, chat) && Sole(s, chat, heir) && (chat, leaver) !in s.members
    && forall u :: u != heir && u != leaver ==>
         ((chat, u) in t.members <==> (chat, u) in s.members) &&
         ((chat, u) in t.members ==> s.members[(chat, u)] == t.members[(chat, u)])
  }

  lemma OwnershipPassesAt(t: Sql.Tables, chat: Id, caller: Id, other: Id) returns (i: int)
    requires Inv(t) && Single(t) && LiveGroup(t, chat) && IsOwner(t, chat, caller)
    requires other != caller && (chat, other) in t.members
    ensures var members, out := Sql.GetMembers(t, chat), LeaveChat(t, NoFaults(), chat, caller);
            && out.result == Ok(Done) && Successor(members, caller, i) && Other(members, i, caller)
            && PassedOn(t, out.Final(t), chat, caller, members[i].user)
  {
    var owner: Id :| Sole(t, chat, owner);
    ListsOther(t, chat, caller, other);
    i := LeaveByOwner(t, NoFaults(), chat, caller);
    HandOverDone(t, Works, Works, chat, caller, Sql.GetMembers(t, chat)[i].user);
  }

  /** When an owner leaves a group with others in it, the first admin in join order becomes
      the owner, or else the first other member; the leaver goes, the others stay as they were. */
  lemma OwnershipPasses(t: Sql.Tables, ops: seq<Op>, chat: Id, caller: Id, other: Id) returns (i: int)
    requires Start(t)
    requires LiveGroup(Run(t, Healthy(ops)), chat) && IsOwner(Run(t, Healthy(ops)), chat, caller)
    requires other != caller && (chat, other) in Run(t, Healthy(ops)).members
    ensures var t1 := Run(t, Healthy(ops));
            var members, out := Sql.GetMembers(t1, chat), LeaveChat(t1, NoFaults(), chat, caller);
            && out.result == Ok(Done) && Successor(members, caller, i) && Other(members, i, caller)
            && PassedOn(t1, out.Final(t1), chat, caller, members[i].user)
  {
    assert Inv(t) && Single(t);
    RunKeeps(t, Healthy(ops));
    HealthyNoneHalfWay(t, ops);
    RunSingle(t, Healthy(ops));
    i := OwnershipPassesAt(Run(t, Healthy(ops)), chat, caller, other);
  }

  lemma ListsOther(t: Sql.Tables, chat: Id, caller: Id, other: Id)
    requires KeysHold(t) && other != caller && (chat, other) in t.members
    ensures HasOther(Sql.GetMembers(t, chat), caller)
  {
    var members := Sql.GetMembers(t, chat);
    assert (chat, other).1 in t.users;
    MembersListed(t, chat);
    var k :| 0 <= k < |members| && members[k].user == other;
    assert Other(members, k, caller);
  }

  // ---- Retrying an interrupted departure ----

  /** The first member other than the leaver in join order, nobody else being admin. */
  ghost predicate FirstAndNoAdmin(t: Sql.Tables, chat: Id, leaver: Id, heir: Id)
    requires (chat, heir) in t.members
  {
    forall u :: u != leaver && u != heir && (chat, u) in t.members ==>
      !t.members[(chat, u)].role.Admin? &&
      Sql.JoinedBefore((t.members[(chat, heir)].joinedAt, heir), (t.members[(chat, u)].joinedAt, u))
  }

  /** An owner leaves again while another owner is there. If the scan picks somebody who already
      is an owner, the promotion changes nothing: Postgres goes on and removes the leaver, MySQL
      reports "not a chat member" and nothing happens. Otherwise both dialects make whom the scan
      picks a further owner. */
  lemma RetryAfterInterruption(t: Sql.Tables, chat: Id, leaver: Id, heir: Id) returns (i: int)
    requires KeysHold(t) && LiveGroup(t, chat) && leaver != heir
    requires IsOwner(t, chat, leaver) && IsOwner(t, chat, heir)
    ensures var members, out := Sql.GetMembers(t, chat), LeaveChat(t, NoFaults(), chat, leaver);
            && Successor(members, leaver, i) && Other(members, i, leaver) && (chat, members[i].user) in t.members
            && var next, s := members[i].user, out.Final(t);
            if IsOwner(t, chat, next) && t.dialect.MySQL? then
              out.result == Err(ErrNotChatMember) && s == t
            else
              out.result == Ok(Done) &&
              s == t.(members := t.members[(chat, next) := t.members[(chat, next)].(role := Owner)] - {(chat, leaver)})
  {
    ListsOther(t, chat, leaver, heir);
    i := LeaveByOwner(t, NoFaults(), chat, leaver);
    var next := Sql.GetMembers(t, chat)[i].user;
    if IsOwner(t, chat, next) {
      assert t.members[(chat, next) := t.members[(chat, next)].(role := Owner)] == t.members;
    }
  }

  lemma Listed(t: Sql.Tables, chat: Id, u: Id) returns (k: int)
    requires KeysHold(t) && (chat, u) in t.members
    ensures var members := Sql.GetMembers(t, chat); 0 <= k < |members| && members[k].user == u
  {
    MembersListed(t, chat);
    assert (chat, u).1 in t.users;
    k :| 0 <= k < |Sql.GetMembers(t, chat)| && Sql.GetMembers(t, chat)[k].user == u;
  }

  /** If the scan picks an owner, nobody else in the list is admin or comes earlier. */
  lemma OwnerPickedIsFirst(t: Sql.Tables, chat: Id, leaver: Id, heir: Id, i: int, u: Id)
    requires KeysHold(t) && IsOwner(t, chat, heir) && u != leaver && u != heir && (chat, u) in t.members
    requires var members := Sql.GetMembers(t, chat);
             Successor(members, leaver, i) && Other(members, i, leaver) && members[i].user == heir
    ensures !t.members[(chat, u)].role.Admin?
    ensures Sql.JoinedBefore((t.members[(chat, heir)].joinedAt, heir), (t.members[(chat, u)].joinedAt, u))
  {
    var members := Sql.GetMembers(t, chat);
    var k := Listed(t, chat, u);
    assert Other(members, k, leaver);
    assert OtherAdmin(members, k, leaver) ==> HasOtherAdmin(members, leaver);
    MembersListed(t, chat);
    assert i < k;
  }

  /** Whom the scan picks, between an owner to be and everybody else. */
  lemma RetryPicksHeirIff(t: Sql.Tables, chat: Id, leaver: Id, heir: Id, i: int)
    requires KeysHold(t) && leaver != heir && IsOwner(t, chat, heir)
    requires var members := Sql.GetMembers(t, chat); Successor(members, leaver, i) && Other(members, i, leaver)
    ensures Sql.GetMembers(t, chat)[i].user == heir <==> FirstAndNoAdmin(t, chat, leaver, heir)
  {
    var members := Sql.GetMembers(t, chat);
    if members[i].user == heir {
      forall u: Id | u != leaver && u != heir && (chat, u) in t.members
        ensures !t.members[(chat, u)].role.Admin?
        ensures Sql.JoinedBefore((t.members[(chat, heir)].joinedAt, heir), (t.members[(chat, u)].joinedAt, u))
      {
        OwnerPickedIsFirst(t, chat, leaver, heir, i, u);
      }
    } else {
      var h := Listed(t, chat, heir);
      assert Other(members, h, leaver) && (chat, members[i].user) in t.members;
      MembersListed(t, chat);
      assert i < h || OtherAdmin(members, i, leaver);
    }
  }

  /** What the tables of a retry mean for the two owners there were. */
  lemma OneOwnerAfterRetry(t: Sql.Tables, s: Sql.Tables, chat: Id, leaver: Id, heir: Id, next: Id)
    requires leaver != heir && next != leaver && (chat, next) in t.members
    requires forall u :: IsOwner(t, chat, u) <==> u == leaver || u == heir
    requires if IsOwner(t, chat, next) && t.dialect.MySQL? then s == t
             else s == t.(members :=
               t.members[(chat, next) := t.members[(chat, next)].(role := Owner)] - {(chat, leaver)})
    ensures OneOwner(s, chat) <==> t.dialect.Postgres? && next == heir
    ensures OneOwner(s, chat) ==> Sole(s, chat, heir)
  {
    assert IsOwner(t, chat, heir) && IsOwner(t, chat, leaver);
    assert IsOwner(s, chat, heir);
    if next != heir {
      assert IsOwner(s, chat, next);
    } else if t.dialect.MySQL? {
      assert IsOwner(s, chat, leaver);
    } else {
      forall u: Id | IsOwner(s, chat, u)
        ensures u == heir
      {
        assert u != heir ==> IsOwner(t, chat, u);
      }
      assert Sole(s, chat, heir);
    }
  }

  /** With the leaver and one heir the only owners, leaving again puts things right exactly on
      Postgres when nobody else is admin and the heir is the first of the others to have joined. */
  lemma RetryPutsRightIff(t: Sql.Tables, chat: Id, leaver: Id, heir: Id)
    requires KeysHold(t) && LiveGroup(t, chat) && leaver != heir
    requires IsOwner(t, chat, leaver) && IsOwner(t, chat, heir)
    requires forall u :: IsOwner(t, chat, u) ==> u == leaver || u == heir
    ensures var out := LeaveChat(t, NoFaults(), chat, leaver);
            && (OneOwner(out.Final(t), chat) <==> t.dialect.Postgres? && FirstAndNoAdmin(t, chat, leaver, heir))
            && (OneOwner(out.Final(t), chat) ==> out.result == Ok(Done) && Sole(out.Final(t), chat, heir))
  {
    var i := RetryAfterInterruption(t, chat, leaver, heir);
    RetryPicksHeirIff(t, chat, leaver, heir, i);
    var s, next := LeaveChat(t, NoFaults(), chat, leaver).Final(t), Sql.GetMembers(t, chat)[i].user;
    OneOwnerAfterRetry(t, s, chat, leaver, heir, next);
  }
}
