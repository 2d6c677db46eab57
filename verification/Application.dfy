/** Whole runs of all use cases over one database and one cache that all repositories share. */
module Application {
  import opened Wrappers
  import opened Domain
  import opened CachedChats
  import opened SharedCaching
  import CacheKeys
  import Sql = ChatTables
  import Chats = ChatUseCases
  import Messages = MessageUseCases
  import Users = Accounts
  import MessageTables
  import History
  import ChatService
  import MessageService
  import UserService
  import Ownership
  import SingleOwner

  /** Users come by registering, not out of the blue. */
  type ChatUseCase = c: Chats.Op | !c.RegisterUser? witness Chats.GetChatOp(0, 0)

  datatype Op =
    | ChatOp(c: ChatUseCase)
    | MessageOp(m: Messages.Op)
    | UserOp(u: Users.Op)

  datatype Answer =
    | ChatAnswer(chat: Result<Chats.Reply>)
    | MessageAnswer(message: Result<Messages.Reply>)
    | UserAnswer(user: Result<Users.Reply>)

  /** The database: chats, messages and users. What the chat tables know of users, that they are
      there, is the live rows of the user table. */
  datatype Origin = Origin(t: Sql.Tables, s: MessageTables.Store, d: Users.Db)

  ghost predicate Sound(o: Origin)
  {
    o.t.users == Users.LiveUsers(o.d) && Users.Sound(o.d) && Messages.IdsSound(o.s)
  }

  function WithUsers(t: Sql.Tables, d: Users.Db): Sql.Tables
  {
    t.(users := Users.LiveUsers(d))
  }

  /** The origin alone: one use case over the tables. */
  function Step(o: Origin, op: Op): (Answer, Origin)
    requires Sound(o)
  {
    match op
    case ChatOp(c) =>
      var out := Chats.Exec(o.t, Chats.NoFaults(), c);
      (ChatAnswer(out.result), o.(t := out.Final(o.t)))
    case MessageOp(m) =>
      var (r, s) := Messages.Exec(o.t, o.s, m);
      (MessageAnswer(r), o.(s := s))
    case UserOp(u) =>
      var (r, d) := Users.Exec(o.d, u);
      (UserAnswer(r), o.(t := WithUsers(o.t, d), d := d))
  }

  lemma CreationKeepsUsers(t: Sql.Tables, chat: Chat, ms: seq<ChatMember>)
    ensures var w := Sql.CreateWithMembers(t, chat, ms); w.Ok? ==> w.value.users == t.users
  {
    if Sql.CreateWithMembers(t, chat, ms).Ok? {
      Sql.InsertMembersAdds(t.(chats := t.chats[chat.id := chat]), ms);
    }
  }

  lemma HandOverKeepsUsers(t: Sql.Tables, chat: Id, leaver: Id, heir: Id)
    ensures Chats.HandOver(t, Chats.Works, Chats.Works, chat, leaver, heir).Final(t).users == t.users
  {
  }

  lemma LeavingKeepsUsers(t: Sql.Tables, chat: Id, caller: Id)
    ensures Chats.LeaveChat(t, Chats.NoFaults(), chat, caller).Final(t).users == t.users
  {
    var next := Chats.NextOwner(Sql.GetMembers(t, chat), caller, None);
    if next.Some? { HandOverKeepsUsers(t, chat, caller, next.value.user); }
  }

  lemma MemberOpsKeepUsers(t: Sql.Tables, op: ChatUseCase)
    requires op.AddMemberOp? || op.RemoveMemberOp? || op.ChangeMemberRoleOp?
    ensures Chats.Exec(t, Chats.NoFaults(), op).Final(t).users == t.users
  {
  }

  lemma ChatsKeepUsers(t: Sql.Tables, op: ChatUseCase)
    ensures Chats.Exec(t, Chats.NoFaults(), op).Final(t).users == t.users
  {
    match op
    case CreateDirectOp(caller, target, newId, now) =>
      CreationKeepsUsers(t, Chats.NewDirect(caller, newId, now), Chats.DirectMembers(caller, target, newId, now));
    case CreateGroupOp(caller, name, description, ids, newId, now) =>
      CreationKeepsUsers(t, Chats.NewGroup(caller, name, description, newId, now),
                         Chats.GroupMembers(caller, ids, newId, now));
    case LeaveChatOp(chat, caller) => LeavingKeepsUsers(t, chat, caller);
    case UpdateGroupOp(_, _, _, _, _, _) =>
    case GetChatOp(_, _) =>
    case ListMembersOp(_, _) =>
    case _ => MemberOpsKeepUsers(t, op);
  }

  lemma StepSound(o: Origin, op: Op)
    requires Sound(o)
    ensures Sound(Step(o, op).1)
  {
    match op
    case ChatOp(c) => ChatsKeepUsers(o.t, c);
    case MessageOp(m) => Messages.ExecLater(o.t, o.s, m);
    case UserOp(u) => Users.ExecKeeps(o.d, u);
  }

  function Answers(o: Origin, ops: seq<Op>): seq<Answer>
    requires Sound(o)
    decreases |ops|
  {
    if ops == [] then [] else
    StepSound(o, ops[0]);
    [Step(o, ops[0]).0] + Answers(Step(o, ops[0]).1, ops[1..])
  }

  function Final(o: Origin, ops: seq<Op>): Origin
    requires Sound(o)
    decreases |ops|
  {
    if ops == [] then o else
    StepSound(o, ops[0]);
    Final(Step(o, ops[0]).1, ops[1..])
  }

  // ---- The application's runs are the runs that invariants are proved of ----

  /** A user who registers comes, to the chats, as a new user; nothing else that users do is seen there. */
  function Arrival(o: Origin, u: Users.Op): seq<Chats.Op>
    requires Sound(o)
  {
    if u.RegisterOp? && u.newId in Users.LiveUsers(Users.Exec(o.d, u).1) then [Chats.RegisterUser(u.newId)] else []
  }

  function ChatPart(o: Origin, op: Op): seq<Chats.Op>
    requires Sound(o)
  {
    match op
    case ChatOp(c) => [c]
    case MessageOp(_) => []
    case UserOp(u) => Arrival(o, u)
  }

  function ChatOps(o: Origin, ops: seq<Op>): seq<Chats.Op>
    requires Sound(o)
    decreases |ops|
  {
    if ops == [] then [] else
    StepSound(o, ops[0]);
    ChatPart(o, ops[0]) + ChatOps(Step(o, ops[0]).1, ops[1..])
  }

  function EventPart(o: Origin, op: Op): seq<Messages.Event>
    requires Sound(o)
  {
    if op.MessageOp? then [Messages.MessageEvent(op.m)]
    else if ChatPart(o, op) == [] then [] else [Messages.ChatEvent(ChatPart(o, op)[0])]
  }

  function Events(o: Origin, ops: seq<Op>): seq<Messages.Event>
    requires Sound(o)
    decreases |ops|
  {
    if ops == [] then [] else
    StepSound(o, ops[0]);
    EventPart(o, ops[0]) + Events(Step(o, ops[0]).1, ops[1..])
  }

  lemma ArrivalAdds(o: Origin, u: Users.Op)
    requires Sound(o)
    ensures Step(o, UserOp(u)).1.t ==
              if Arrival(o, u) == [] then o.t else o.t.(users := o.t.users + {u.newId})
  {
    Users.ExecKeeps(o.d, u);
    assert o.t.(users := o.t.users) == o.t;
  }

  lemma ChatPartRuns(o: Origin, op: Op, rest: seq<Chats.Op>)
    requires Sound(o)
    ensures Ownership.Run(o.t, SingleOwner.Healthy(ChatPart(o, op) + rest)) ==
              Ownership.Run(Step(o, op).1.t, SingleOwner.Healthy(rest))
  {
    if op.UserOp? { ArrivalAdds(o, op.u); }
    if ChatPart(o, op) == [] {
      assert [] + rest == rest;
    } else {
      assert SingleOwner.Healthy(ChatPart(o, op) + rest)[1..] == SingleOwner.Healthy(rest);
    }
  }

  lemma OneEvent(t: Sql.Tables, s: MessageTables.Store, e: Messages.Event, rest: seq<Messages.Event>)
    ensures Messages.Run(t, s, [e] + rest) == Messages.Run(Messages.Step(t, s, e).0, Messages.Step(t, s, e).1, rest)
  {
    assert ([e] + rest)[1..] == rest;
  }

  lemma EventPartRuns(o: Origin, op: Op, rest: seq<Messages.Event>)
    requires Sound(o)
    ensures var o' := Step(o, op).1;
            Messages.Run(o.t, o.s, EventPart(o, op) + rest) == Messages.Run(o'.t, o'.s, rest)
  {
    match op
    case ChatOp(c) => OneEvent(o.t, o.s, Messages.ChatEvent(c), rest);
    case MessageOp(m) => OneEvent(o.t, o.s, Messages.MessageEvent(m), rest);
    case UserOp(u) =>
      ArrivalAdds(o, u);
      if Arrival(o, u) == [] {
        assert [] + rest == rest;
      } else {
        OneEvent(o.t, o.s, Messages.ChatEvent(Chats.RegisterUser(u.newId)), rest);
      }
  }

  lemma {:induction false} FinalIsChatRun(o: Origin, ops: seq<Op>)
    requires Sound(o)
    ensures Final(o, ops).t == Ownership.Run(o.t, SingleOwner.Healthy(ChatOps(o, ops)))
    decreases |ops|
  {
    if ops != [] {
      StepSound(o, ops[0]);
      FinalIsChatRun(Step(o, ops[0]).1, ops[1..]);
      ChatPartRuns(o, ops[0], ChatOps(Step(o, ops[0]).1, ops[1..]));
    }
  }

  lemma {:induction false} FinalIsRun(o: Origin, ops: seq<Op>)
    requires Sound(o)
    ensures (Final(o, ops).t, Final(o, ops).s) == Messages.Run(o.t, o.s, Events(o, ops))
    decreases |ops|
  {
    if ops != [] {
      StepSound(o, ops[0]);
      FinalIsRun(Step(o, ops[0]).1, ops[1..]);
      EventPartRuns(o, ops[0], Events(Step(o, ops[0]).1, ops[1..]));
    }
  }

  lemma FinalForest(o: Origin, ops: seq<Op>)
    requires Sound(o) && Messages.Empty(o.s)
    ensures Messages.Forest(Final(o, ops).s)
  {
    FinalIsRun(o, ops);
    Messages.RunForest(o.t, o.s, Events(o, ops));
  }

  /** So the application keeps, from an empty database on and over its cache: groups have one owner,
      direct chats are pairs, no two users have two, and replies form a forest. */
  lemma ApplicationKeeps(o: Origin, ops: seq<Op>)
    requires Sound(o) && Ownership.Start(o.t) && Messages.Empty(o.s)
    ensures Ownership.Inv(Final(o, ops).t) && SingleOwner.Single(Final(o, ops).t)
    ensures Messages.Forest(Final(o, ops).s)
  {
    FinalIsChatRun(o, ops);
    SingleOwner.HealthyKeeps(o.t, ChatOps(o, ops));
    FinalForest(o, ops);
  }

  class App {
    const db: Database
    const userDb: UserService.Database
    const store: MessageService.MessageDb
    const cache: SharedCache
    const chats: ChatService.Service
    const messages: MessageService.Service
    const users: UserService.Service

    ghost predicate Wired()
      reads this
    {
      && chats.chats.db == db && chats.chats.cache == cache
      && messages.chats == chats.chats && messages.messages == store
      && users.users.db == userDb && users.users.cache == cache
    }

    ghost function Database(): Origin
      reads this, db, store, userDb
    {
      Origin(db.t, store.s, userDb.d)
    }

    ghost predicate Valid()
      reads this, db, userDb, store, cache
    {
      && Wired() && Sound(Database()) && cache.Valid()
      && Coherent(db.t, cache.entries) && UserService.UsersTrue(userDb.d, cache.entries)
    }

    /** All use cases are given repositories over the same cache, which starts empty. */
    constructor (o: Origin)
      requires Sound(o)
      ensures Valid() && fresh(db) && fresh(cache) && fresh(store) && fresh(userDb)
      ensures Database() == o
    {
      var d := new CachedChats.Database(o.t);
      var u := new UserService.Database(o.d);
      var m := new MessageService.MessageDb(o.s);
      var c := new SharedCache();
      var chatRepo := new ChatRepo(d, c);
      var userRepo := new UserService.UserRepo(u, c);
      var chatUseCases := new ChatService.Service(chatRepo);
      var messageUseCases := new MessageService.Service(m, chatRepo);
      var userUseCases := new UserService.Service(userRepo);
      db, userDb, store, cache := d, u, m, c;
      chats, messages, users := chatUseCases, messageUseCases, userUseCases;
    }

    method RunChat(op: ChatUseCase) returns (r: Result<Chats.Reply>)
      requires Valid()
      modifies db, cache
      ensures cache.Valid() && Coherent(db.t, cache.entries) && OnlyChatsChange(old(cache.entries), cache.entries)
      ensures ChatService.Refines(old(db.t), db.t, r, Chats.Exec(old(db.t), Chats.NoFaults(), op))
    {
      match op
      case CreateDirectOp(caller, target, newId, now) =>
        r := chats.CreateDirect(caller, target, newId, now);
      case CreateGroupOp(caller, name, description, ids, newId, now) =>
        r := chats.CreateGroup(caller, name, description, ids, newId, now);
      case GetChatOp(chat, caller) =>
        var got := chats.GetChat(chat, caller);
        r := if got.Ok? then Ok(Chats.ChatReply(got.value, false)) else Err(got.error);
      case ListMembersOp(chat, caller) =>
        var got := chats.GetMembers(chat, caller);
        r := if got.Ok? then Ok(Chats.MembersReply(got.value)) else Err(got.error);
      case UpdateGroupOp(chat, caller, name, description, avatarUrl, now) =>
        r := chats.UpdateGroup(chat, caller, name, description, avatarUrl, now);
      case AddMemberOp(chat, caller, user, now) =>
        r := chats.AddMember(chat, caller, user, now);
      case RemoveMemberOp(chat, caller, user) =>
        r := chats.RemoveMember(chat, caller, user);
      case ChangeMemberRoleOp(chat, caller, user, role) =>
        r := chats.ChangeMemberRole(chat, caller, user, role);
      case LeaveChatOp(chat, caller) =>
        r := chats.LeaveChat(chat, caller);
    }

    method RunMessage(op: Messages.Op) returns (r: Result<Messages.Reply>)
      requires Valid()
      modifies store, cache
      ensures cache.Valid() && Coherent(db.t, cache.entries) && OnlyChatsChange(old(cache.entries), cache.entries)
      ensures (r, store.s) == Messages.Exec(db.t, old(store.s), op)
    {
      match op
      case SendOp(sender, chat, content, kind, replyTo, newId, now) =>
        r := messages.Send(sender, chat, content, kind, replyTo, newId, now);
      case EditOp(id, caller, content, now) =>
        r := messages.Edit(id, caller, content, now);
      case DeleteOp(id, caller, dbNow) =>
        r := messages.Delete(id, caller, dbNow);
      case ReadOp(chat, caller, dbNow) =>
        r := messages.MarkRead(chat, caller, dbNow);
      case ReactOp(id, caller, emoji, now) =>
        r := messages.AddReaction(id, caller, emoji, now);
      case UnreactOp(id, caller, emoji) =>
        r := messages.RemoveReaction(id, caller, emoji);
      case HistoryOp(chat, caller, cursor, limit) =>
        r := messages.GetHistory(caller, chat, cursor, History.Clamp(limit));
    }

    method RunUser(op: Users.Op) returns (r: Result<Users.Reply>)
      requires Valid()
      modifies userDb, cache
      ensures users.Valid() && UserService.OnlyUsersChange(old(cache.entries), cache.entries)
      ensures (r, userDb.d) == Users.Exec(old(userDb.d), op)
    {
      match op
      case RegisterOp(username, email, password, hash, tokens, newId, now) =>
        var got := users.Register(username, email, password, hash, tokens, newId, now);
        r := Users.Shown(got);
      case LoginOp(email, password, check, tokens) =>
        var got := users.Login(email, password, check, tokens);
        Users.LoginSucceedsIff(userDb.d, email, password, check, tokens, got);
        r := Users.Shown(got);
      case ProfileOp(id) =>
        var got := users.GetProfile(id);
        r := Users.Shown(got);
      case UpdateProfileOp(id, username, bio, avatarUrl, now) =>
        var got := users.UpdateProfile(id, username, bio, avatarUrl, now);
        r := Users.Shown(got);
      case StatusOp(id, online, now, dbNow) =>
        users.SetStatus(id, online, now, dbNow);
        r := Ok(Users.Done);
    }

    method RunOne(op: Op) returns (answer: Answer)
      requires Valid()
      modifies db, userDb, store, cache
      ensures Valid()
      ensures (answer, Database()) == Step(old(Database()), op)
    {
      StepSound(Database(), op);
      ghost var before := cache.entries;
      match op {
        case ChatOp(c) =>
          var r := RunChat(c);
          UserService.UsersStayTrue(userDb.d, before, cache.entries);
          answer := ChatAnswer(r);
        case MessageOp(m) =>
          var r := RunMessage(m);
          UserService.UsersStayTrue(userDb.d, before, cache.entries);
          answer := MessageAnswer(r);
        case UserOp(u) =>
          ghost var d := userDb.d;
          var r := RunUser(u);
          UserService.ChatsStayCoherent(db.t, before, cache.entries);
          Users.ExecKeeps(d, u);
          if u.RegisterOp? { NewUserCoherent(db.t, cache.entries, u.newId); }
          db.t := WithUsers(db.t, userDb.d);
          answer := UserAnswer(r);
      }
    }

    /** Any sequence of use cases, over the cache with its misses, expiries and failed read-path
        Sets: the answers, and the final database, are those of the origin alone. */
    method Replay(ops: seq<Op>) returns (answers: seq<Answer>)
      requires Valid()
      modifies db, userDb, store, cache
      ensures Valid()
      ensures answers == Answers(old(Database()), ops)
      ensures Database() == Final(old(Database()), ops)
      decreases |ops|
    {
      if ops == [] {
        return [];
      }
      var answer := RunOne(ops[0]);
      var rest := Replay(ops[1..]);
      return [answer] + rest;
    }
  }

  /** Users only arrive, so what was cached of members stays true; a member row whose user is
      unknown is never cached. */
  lemma NewUserCoherent(t: Sql.Tables, entries: map<CacheKeys.Key, CacheKeys.CacheValue>, user: Id)
    requires Coherent(t, entries)
    ensures Coherent(t.(users := t.users + {user}), entries)
  {
    var s := t.(users := t.users + {user});
    forall k | k in entries
      ensures True(s, k, entries[k])
    {
      assert True(t, k, entries[k]);
    }
  }
}
