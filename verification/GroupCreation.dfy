/** When a group comes into being, and with whom in it. */
module GroupCreation {
  import opened Domain
  import opened ChatUseCases
  import opened Ownership
  import Sql = ChatTables

  /** Removing duplicates keeps exactly the ids not seen before, each once. */
  lemma {:induction false} FreshLists(ids: seq<Id>, seen: set<Id>)
    ensures forall u :: u in Fresh(ids, seen) <==> u in ids && u !in seen
    ensures forall i, j :: 0 <= i < j < |Fresh(ids, seen)| ==> Fresh(ids, seen)[i] != Fresh(ids, seen)[j]
    decreases |ids|
  {
    if ids != [] {
      assert forall u :: u in ids <==> u == ids[0] || u in ids[1..];
      if ids[0] in seen {
        FreshLists(ids[1..], seen);
      } else {
        FreshLists(ids[1..], seen + {ids[0]});
        var rest := Fresh(ids[1..], seen + {ids[0]});
        assert ids[0] !in rest;
        assert forall j :: 0 <= j < |rest| ==> rest[j] in rest;
      }
    }
  }

  lemma {:induction false} CheckUsersAll(t: Sql.Tables, calls: nat, caller: Id, ids: seq<Id>)
    ensures CheckUsers(t, NoFaults(), calls, caller, ids).Ok? <==>
              forall u :: u in ids && u != caller ==> u in t.users
    ensures CheckUsers(t, NoFaults(), calls, caller, ids).Err? ==>
              CheckUsers(t, NoFaults(), calls, caller, ids).error == ErrUserNotFound
    decreases |ids|
  {
    if ids != [] {
      assert forall u :: u in ids <==> u == ids[0] || u in ids[1..];
      CheckUsersAll(t, calls, caller, ids[1..]);
      CheckUsersAll(t, calls + 1, caller, ids[1..]);
    }
  }

  /** Rows for distinct, known users of a chat that has none go in. */
  lemma {:induction false} InsertDistinct(t: Sql.Tables, chat: Id, ms: seq<ChatMember>)
    requires chat in t.chats
    requires forall i :: 0 <= i < |ms| ==>
               ms[i].chat == chat && ms[i].user in t.users && (chat, ms[i].user) !in t.members
    requires forall i, j :: 0 <= i < j < |ms| ==> ms[i].user != ms[j].user
    ensures Sql.InsertMembers(t, ms).Ok?
    decreases |ms|
  {
    if ms != [] {
      var t' := Sql.InsertMember(t, ms[0]).value;
      assert forall i :: 0 <= i < |ms[1..]| ==> ms[1..][i] == ms[i + 1];
      InsertDistinct(t', chat, ms[1..]);
    }
  }

  lemma MembersDistinct(caller: Id, ids: seq<Id>, id: Id, now: int)
    ensures var ms := GroupMembers(caller, ids, id, now);
            && (forall i, j :: 0 <= i < j < |ms| ==> ms[i].user != ms[j].user)
            && (forall i :: 0 <= i < |ms| ==> ms[i].chat == id && (ms[i].user == caller || ms[i].user in ids))
            && (forall i :: 0 <= i < |ms| ==> (ms[i].membership.role == if ms[i].user == caller then Owner else Member))
            && (forall u :: u == caller || u in ids ==> exists i :: 0 <= i < |ms| && ms[i].user == u)
  {
    FreshLists(ids, {caller});
    var others, ms := Fresh(ids, {caller}), GroupMembers(caller, ids, id, now);
    assert forall i :: 1 <= i < |ms| ==> ms[i].user == others[i - 1] && others[i - 1] in others;
    assert ms[0].user == caller;
    forall u: Id | u in others
      ensures exists i :: 0 <= i < |ms| && ms[i].user == u
    {
      var i :| 0 <= i < |others| && others[i] == u;
      assert ms[i + 1].user == u;
    }
  }

  /** Without failures a group is created exactly when the input is valid, everybody in it is a
      user, and the new id is new; duplicates and the caller among the listed ids do no harm. */
  lemma CreateGroupSucceedsIff(t: Sql.Tables, caller: Id, name: string, description: string,
                               ids: seq<Id>, newId: Id, now: int)
    requires KeysHold(t)
    ensures CreateGroup(t, NoFaults(), caller, name, description, ids, newId, now).result.Ok? <==>
              GroupInputValid(name, description) && newId !in t.chats && caller in t.users &&
              forall u :: u in ids ==> u in t.users
  {
    CheckUsersAll(t, 0, caller, ids);
    if GroupInputValid(name, description) && newId !in t.chats && caller in t.users &&
       forall u :: u in ids ==> u in t.users {
      var ms := GroupMembers(caller, ids, newId, now);
      MembersDistinct(caller, ids, newId, now);
      var chat := NewGroup(caller, name, description, newId, now);
      var t0 := t.(chats := t.chats[newId := chat]);
      assert forall u: Id :: (newId, u) in t.members ==> (newId, u).0 in t.chats;
      InsertDistinct(t0, newId, ms);
    }
  }

  /** The new group has the caller as its owner and everybody listed as a plain member, once each. */
  lemma CreatedGroupMembers(t: Sql.Tables, caller: Id, name: string, description: string,
                            ids: seq<Id>, newId: Id, now: int)
    requires KeysHold(t)
    requires CreateGroup(t, NoFaults(), caller, name, description, ids, newId, now).result.Ok?
    ensures var s := CreateGroup(t, NoFaults(), caller, name, description, ids, newId, now).Final(t);
            && LiveGroup(s, newId)
            && (forall u :: (newId, u) in s.members <==> u == caller || u in ids)
            && (forall u :: (newId, u) in s.members ==>
                 s.members[(newId, u)] == Membership(if u == caller then Owner else Member, now))
            && OthersSame(t, s, newId)
  {
    var chat, ms := NewGroup(caller, name, description, newId, now), GroupMembers(caller, ids, newId, now);
    var s := CreateGroup(t, NoFaults(), caller, name, description, ids, newId, now).Final(t);
    MembersDistinct(caller, ids, newId, now);
    Created(t, chat, ms);
    forall u: Id
      ensures (newId, u) in s.members <==> u == caller || u in ids
      ensures (newId, u) in s.members ==>
                s.members[(newId, u)] == Membership(if u == caller then Owner else Member, now)
    {
      if (newId, u) in s.members || u == caller || u in ids {
        var i :| 0 <= i < |ms| && ms[i].user == u;
        assert Sql.Inserted(s, ms[i]);
      }
    }
  }
}
