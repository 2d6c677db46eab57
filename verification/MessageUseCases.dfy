/** The message use cases over the tables, and runs that mix them with the chat use cases. */
module MessageUseCases {
  import opened Wrappers
  import opened Domain
  import opened Uuids
  import opened MessageTables
  import Chats = ChatUseCases
  import History
  import Sql = ChatTables

  datatype Reply =
    | Done
    | MessageReply(message: Message)
    | PageReply(page: Page)

  /** A message of a page with its reactions. */
  datatype Shown = Shown(message: Message, reactions: seq<ReactionKey>)

  datatype Page = Page(messages: seq<Shown>, next: Option<Key>)

  function Member(t: Sql.Tables, chat: Id, user: Id): Result<()>
  {
    Chats.AssertMember(Chats.Works, t, chat, user)
  }

  predicate ContentValid(content: string) { 1 <= |content| <= 4096 }

  predicate EmojiValid(emoji: string) { 1 <= |emoji| <= 10 }

  function ReplyAllowed(s: Store, chat: Id, replyTo: Option<Id>): Result<()>
  {
    if replyTo.None? then Ok(()) else
    var reply :- GetByID(s, replyTo.value);
    if reply.chat != chat then Err(ErrMessageNotFound) else Ok(())
  }

  function NewMessage(sender: Id, chat: Id, content: string, kind: string, replyTo: Option<Id>, id: Id,
                      now: int): Message
  {
    Message(id, chat, sender, content, kind, replyTo, None, None, now, now)
  }

  function MaySend(t: Sql.Tables, s: Store, sender: Id, chat: Id, content: string, kind: string,
                   replyTo: Option<Id>): Result<()>
  {
    if chat == NIL || !ContentValid(content) || kind !in ["text", "image", "file"] then Err(ErrValidation) else
    var _ :- Member(t, chat, sender);
    ReplyAllowed(s, chat, replyTo)
  }

  function Send(t: Sql.Tables, s: Store, sender: Id, chat: Id, content: string, kind: string,
                replyTo: Option<Id>, newId: Id, now: int): (Result<Reply>, Store)
  {
    match MaySend(t, s, sender, chat, content, kind, replyTo)
    case Err(e) => (Err(e), s)
    case Ok(_) =>
      var m := NewMessage(sender, chat, content, kind, replyTo, newId, now);
      match Create(s, m)
      case Err(e) => (Err(e), s)
      case Ok(s') => (Ok(MessageReply(m)), s')
  }

  /** The message, if it is live and the caller, a member of its chat, wrote it. */
  function Authored(t: Sql.Tables, s: Store, id: Id, caller: Id): Result<Message>
  {
    var m :- GetByID(s, id);
    if m.deletedAt.Some? then Err(ErrMessageDeleted)
    else if m.sender != caller then Err(ErrNotMessageAuthor)
    else
      var _ :- Member(t, m.chat, caller);
      Ok(m)
  }

  function Edited(m: Message, content: string, now: int): Message
  {
    m.(content := content, editedAt := Some(now), updatedAt := now)
  }

  function Edit(t: Sql.Tables, s: Store, id: Id, caller: Id, content: string, now: int): (Result<Reply>, Store)
  {
    if !ContentValid(content) then (Err(ErrValidation), s) else
    match Authored(t, s, id, caller)
    case Err(e) => (Err(e), s)
    case Ok(m) =>
      match Update(s, Edited(m, content, now))
      case Err(e) => (Err(e), s)
      case Ok(s') => (Ok(MessageReply(Edited(m, content, now))), s')
  }

  function DeleteMessage(t: Sql.Tables, s: Store, id: Id, caller: Id, dbNow: int): (Result<Reply>, Store)
  {
    match Authored(t, s, id, caller)
    case Err(e) => (Err(e), s)
    case Ok(_) =>
      match Delete(s, id, dbNow)
      case Err(e) => (Err(e), s)
      case Ok(s') => (Ok(Done), s')
  }

  function ReadChat(t: Sql.Tables, s: Store, chat: Id, caller: Id, dbNow: int): (Result<Reply>, Store)
  {
    match Member(t, chat, caller)
    case Err(e) => (Err(e), s)
    case Ok(_) => (Ok(Done), MarkRead(s, chat, caller, dbNow))
  }

  function MayReact(t: Sql.Tables, s: Store, id: Id, caller: Id, emoji: string): Result<()>
  {
    if !EmojiValid(emoji) then Err(ErrValidation) else
    var m :- GetByID(s, id);
    if m.deletedAt.Some? then Err(ErrMessageDeleted) else Member(t, m.chat, caller)
  }

  function React(t: Sql.Tables, s: Store, id: Id, caller: Id, emoji: string, now: int): (Result<Reply>, Store)
  {
    match MayReact(t, s, id, caller, emoji)
    case Err(e) => (Err(e), s)
    case Ok(_) => (Ok(Done), AddReaction(s, id, caller, emoji, now))
  }

  function Unreact(t: Sql.Tables, s: Store, id: Id, caller: Id, emoji: string): (Result<Reply>, Store)
  {
    match MayReact(t, s, id, caller, emoji)
    case Err(e) => (Err(e), s)
    case Ok(_) => (Ok(Done), RemoveReaction(s, id, caller, emoji))
  }

  /** One query per message: what the batched history must amount to. */
  function WithReactions(s: Store, users: set<Id>, msgs: seq<Message>): (r: seq<Shown>)
    ensures |r| == |msgs|
  {
    seq(|msgs|, i requires 0 <= i < |msgs| => Shown(msgs[i], GetReactions(s, users, msgs[i].id)))
  }

  function GetHistory(t: Sql.Tables, s: Store, caller: Id, chat: Id, cursor: Option<Key>, limit: nat): Result<Reply>
    requires limit >= 1
  {
    var _ :- Member(t, chat, caller);
    Ok(PageReply(Page(
      WithReactions(s, t.users, GetChatMessages(s, chat, cursor, limit)),
      History.NextCursor(PageKeys(s, chat, cursor, limit), limit))))
  }

  datatype Op =
    | SendOp(sender: Id, chat: Id, content: string, kind: string, replyTo: Option<Id>, newId: Id, now: int)
    | EditOp(id: Id, caller: Id, content: string, now: int)
    | DeleteOp(id: Id, caller: Id, dbNow: int)
    | ReadOp(chat: Id, caller: Id, dbNow: int)
    | ReactOp(id: Id, caller: Id, emoji: string, now: int)
    | UnreactOp(id: Id, caller: Id, emoji: string)
    | HistoryOp(chat: Id, caller: Id, cursor: Option<Key>, limit: int)

  function Exec(t: Sql.Tables, s: Store, op: Op): (Result<Reply>, Store)
  {
    match op
    case SendOp(sender, chat, content, kind, replyTo, newId, now) =>
      Send(t, s, sender, chat, content, kind, replyTo, newId, now)
    case EditOp(id, caller, content, now) => Edit(t, s, id, caller, content, now)
    case DeleteOp(id, caller, dbNow) => DeleteMessage(t, s, id, caller, dbNow)
    case ReadOp(chat, caller, dbNow) => ReadChat(t, s, chat, caller, dbNow)
    case ReactOp(id, caller, emoji, now) => React(t, s, id, caller, emoji, now)
    case UnreactOp(id, caller, emoji) => Unreact(t, s, id, caller, emoji)
    case HistoryOp(chat, caller, cursor, limit) => (GetHistory(t, s, caller, chat, cursor, History.Clamp(limit)), s)
  }

  // ---- What every step keeps ----

  ghost predicate IdsSound(s: Store)
  {
    forall id :: id in s.messages ==> s.messages[id].id == id
  }

  /** Messages never go, and never change chat, sort key, author or what they reply to;
      a deleted one stays deleted. */
  ghost predicate Later(s: Store, s': Store)
  {
    s.inserted <= s'.inserted &&
    forall id :: id in s.messages ==> id in s'.messages && SameIdentity(s.messages[id], s'.messages[id])
  }

  ghost predicate SameIdentity(m: Message, m': Message)
  {
    && m'.id == m.id && m'.chat == m.chat && m'.sender == m.sender && m'.createdAt == m.createdAt
    && m'.replyTo == m.replyTo && (m.deletedAt.Some? ==> m'.deletedAt.Some?)
  }

  /** One message added, or one replaced by itself with another content or mark of deletion. */
  lemma WriteLater(s: Store, m: Message)
    requires IdsSound(s)
    requires m.id in s.messages ==> SameIdentity(s.messages[m.id], m)
    ensures IdsSound(s.(messages := s.messages[m.id := m]))
    ensures Later(s, s.(messages := s.messages[m.id := m]))
    ensures Later(s, s.(messages := s.messages[m.id := m], inserted := s.inserted + [m.id]))
  {
  }

  lemma SendLater(t: Sql.Tables, s: Store, sender: Id, chat: Id, content: string, kind: string,
                  replyTo: Option<Id>, newId: Id, now: int)
    requires IdsSound(s)
    ensures var s' := Send(t, s, sender, chat, content, kind, replyTo, newId, now).1;
            Later(s, s') && IdsSound(s')
  {
    var m := NewMessage(sender, chat, content, kind, replyTo, newId, now);
    if newId !in s.messages { WriteLater(s, m); }
  }

  lemma EditLater(t: Sql.Tables, s: Store, id: Id, caller: Id, content: string, now: int)
    requires IdsSound(s)
    ensures var s' := Edit(t, s, id, caller, content, now).1;
            Later(s, s') && IdsSound(s')
  {
    if id in s.messages { WriteLater(s, Edited(s.messages[id], content, now)); }
  }

  lemma DeleteLater(t: Sql.Tables, s: Store, id: Id, caller: Id, dbNow: int)
    requires IdsSound(s)
    ensures var s' := DeleteMessage(t, s, id, caller, dbNow).1;
            Later(s, s') && IdsSound(s')
  {
    if id in s.messages { WriteLater(s, s.messages[id].(deletedAt := Some(dbNow), updatedAt := dbNow)); }
  }

  lemma ExecLater(t: Sql.Tables, s: Store, op: Op)
    requires IdsSound(s)
    ensures Later(s, Exec(t, s, op).1) && IdsSound(Exec(t, s, op).1)
  {
    match op
    case SendOp(sender, chat, content, kind, replyTo, newId, now) =>
      SendLater(t, s, sender, chat, content, kind, replyTo, newId, now);
    case EditOp(id, caller, content, now) => EditLater(t, s, id, caller, content, now);
    case DeleteOp(id, caller, dbNow) => DeleteLater(t, s, id, caller, dbNow);
    case _ =>
  }

  // ---- Replies ----

  function Position(ids: seq<Id>, id: Id): nat
    requires id in ids
    ensures Position(ids, id) < |ids| && ids[Position(ids, id)] == id
  {
    if ids[0] == id then 0 else 1 + Position(ids[1..], id)
  }

  lemma {:induction false} PositionKept(ids: seq<Id>, ids': seq<Id>, id: Id)
    requires id in ids && ids <= ids'
    ensures id in ids' && Position(ids', id) == Position(ids, id)
    decreases |ids|
  {
    assert id in ids' by {
      var i :| 0 <= i < |ids| && ids[i] == id;
      assert ids'[i] == id;
    }
    if ids[0] != id {
      assert ids[1..] <= ids'[1..];
      PositionKept(ids[1..], ids'[1..], id);
    }
  }

  /** Every reply points to a message of its own chat inserted strictly earlier. */
  ghost predicate ReplySound(s: Store, id: Id)
    requires id in s.messages
  {
    s.messages[id].id == id && id in s.inserted &&
    (s.messages[id].replyTo.Some? ==>
      var r := s.messages[id].replyTo.value;
      r in s.messages && r in s.inserted && s.messages[r].chat == s.messages[id].chat &&
      Position(s.inserted, r) < Position(s.inserted, id))
  }

  ghost predicate Forest(s: Store)
  {
    (forall id :: id in s.messages ==> ReplySound(s, id)) &&
    (forall id :: id in s.inserted ==> id in s.messages)
  }

  lemma ForestFollows(s: Store, s': Store, id: Id)
    requires Forest(s) && Later(s, s') && id in s.messages
    ensures ReplySound(s', id)
  {
    assert ReplySound(s, id);
    PositionKept(s.inserted, s'.inserted, id);
    if s.messages[id].replyTo.Some? {
      PositionKept(s.inserted, s'.inserted, s.messages[id].replyTo.value);
    }
  }

  lemma {:induction false} AppendedLast(ids: seq<Id>, id: Id)
    requires id !in ids
    ensures id in ids + [id] && Position(ids + [id], id) == |ids|
    decreases |ids|
  {
    var all := ids + [id];
    assert all[|ids|] == id;
    if ids != [] {
      assert all[1..] == ids[1..] + [id];
      AppendedLast(ids[1..], id);
    }
  }

  lemma CreateForest(s: Store, m: Message)
    requires Forest(s) && Create(s, m).Ok?
    requires m.replyTo.Some? ==> s.messages[m.replyTo.value].chat == m.chat
    ensures Forest(Create(s, m).value)
  {
    var s' := Create(s, m).value;
    AppendedLast(s.inserted, m.id);
    if m.replyTo.Some? {
      assert ReplySound(s, m.replyTo.value);
      PositionKept(s.inserted, s'.inserted, m.replyTo.value);
    }
    forall id: Id | id in s.messages
      ensures ReplySound(s', id)
    {
      assert SameIdentity(s.messages[id], s'.messages[id]);
      ForestFollows(s, s', id);
    }
  }

  lemma SameMessagesForest(s: Store, s': Store)
    requires Forest(s) && Later(s, s') && s'.inserted == s.inserted && s'.messages.Keys == s.messages.Keys
    ensures Forest(s')
  {
    forall id: Id | id in s'.messages
      ensures ReplySound(s', id)
    {
      ForestFollows(s, s', id);
    }
  }

  lemma OnlySendInserts(t: Sql.Tables, s: Store, op: Op)
    requires !op.SendOp?
    ensures Exec(t, s, op).1.inserted == s.inserted && Exec(t, s, op).1.messages.Keys == s.messages.Keys
  {
  }

  lemma ExecForest(t: Sql.Tables, s: Store, op: Op)
    requires Forest(s)
    ensures Forest(Exec(t, s, op).1)
  {
    assert forall id :: id in s.messages ==> ReplySound(s, id);
    match op
    case SendOp(sender, chat, content, kind, replyTo, newId, now) =>
      var m := NewMessage(sender, chat, content, kind, replyTo, newId, now);
      if MaySend(t, s, sender, chat, content, kind, replyTo).Ok? && Create(s, m).Ok? {
        CreateForest(s, m);
      }
    case _ =>
      ExecLater(t, s, op);
      OnlySendInserts(t, s, op);
      SameMessagesForest(s, Exec(t, s, op).1);
  }

  /** A message, the one it replies to, and so on up. That this is well-defined says that no
      chain of replies runs in a circle. */
  ghost function Thread(s: Store, id: Id): (r: seq<Id>)
    requires Forest(s) && id in s.messages
    ensures r != [] && r[0] == id
    decreases Rank(s, id)
  {
    assert ReplySound(s, id);
    if s.messages[id].replyTo.None? then [id] else [id] + Thread(s, s.messages[id].replyTo.value)
  }

  ghost function Rank(s: Store, id: Id): nat
  {
    if id in s.inserted then Position(s.inserted, id) else 0
  }

  lemma {:induction false} ThreadInChat(s: Store, id: Id)
    requires Forest(s) && id in s.messages
    ensures forall x :: x in Thread(s, id) ==> x in s.messages && s.messages[x].chat == s.messages[id].chat
    decreases Rank(s, id)
  {
    assert ReplySound(s, id);
    if s.messages[id].replyTo.Some? { ThreadInChat(s, s.messages[id].replyTo.value); }
  }

  /** From its head on, a thread goes strictly back in insertion order. */
  lemma {:induction false} ThreadDescends(s: Store, id: Id)
    requires Forest(s) && id in s.messages
    ensures forall i, j :: 0 <= i < j < |Thread(s, id)| ==> Rank(s, Thread(s, id)[i]) > Rank(s, Thread(s, id)[j])
    decreases Rank(s, id)
  {
    assert ReplySound(s, id);
    if s.messages[id].replyTo.Some? {
      var up := s.messages[id].replyTo.value;
      ThreadDescends(s, up);
      var all, rest := Thread(s, id), Thread(s, up);
      assert all == [id] + rest && Rank(s, id) > Rank(s, rest[0]);
      DescendsFrom(s, id, rest);
    }
  }

  lemma DescendsFrom(s: Store, id: Id, rest: seq<Id>)
    requires rest != [] && Rank(s, id) > Rank(s, rest[0])
    requires forall i, j :: 0 <= i < j < |rest| ==> Rank(s, rest[i]) > Rank(s, rest[j])
    ensures forall i, j :: 0 <= i < j < |[id] + rest| ==> Rank(s, ([id] + rest)[i]) > Rank(s, ([id] + rest)[j])
  {
    forall j | 0 <= j < |rest|
      ensures Rank(s, id) > Rank(s, rest[j])
    {
      assert j == 0 || Rank(s, rest[0]) > Rank(s, rest[j]);
    }
  }

  lemma {:induction false} ThreadHasRoot(s: Store, id: Id)
    requires Forest(s) && id in s.messages
    ensures var root := Thread(s, id)[|Thread(s, id)| - 1];
            root in s.messages && s.messages[root].replyTo.None?
    decreases Rank(s, id)
  {
    assert ReplySound(s, id);
    if s.messages[id].replyTo.Some? { ThreadHasRoot(s, s.messages[id].replyTo.value); }
  }

  // ---- Whole runs ----

  datatype Event =
    | ChatEvent(chatOp: Chats.Op)
    | MessageEvent(messageOp: Op)
    | Fetch(limit: int)      // a page request of the walk under watch

  function Step(t: Sql.Tables, s: Store, e: Event): (Sql.Tables, Store)
  {
    match e
    case ChatEvent(op) => (Chats.Exec(t, Chats.NoFaults(), op).Final(t), s)
    case MessageEvent(op) => (t, Exec(t, s, op).1)
    case Fetch(_) => (t, s)
  }

  function Run(t: Sql.Tables, s: Store, events: seq<Event>): (Sql.Tables, Store)
    decreases |events|
  {
    if events == [] then (t, s) else
    var (t', s') := Step(t, s, events[0]);
    Run(t', s', events[1..])
  }

  /** The store each page request finds, with its page size. */
  function Fetches(t: Sql.Tables, s: Store, events: seq<Event>): (r: seq<(Store, nat)>)
    ensures forall i :: 0 <= i < |r| ==> r[i].1 >= 1
    decreases |events|
  {
    if events == [] then [] else
    var (t', s') := Step(t, s, events[0]);
    (if events[0].Fetch? then [(s, History.Clamp(events[0].limit))] else []) + Fetches(t', s', events[1..])
  }

  ghost predicate Empty(s: Store)
  {
    s.messages == map[] && s.inserted == []
  }

  lemma {:induction false} RunForest(t: Sql.Tables, s: Store, events: seq<Event>)
    requires Forest(s)
    ensures Forest(Run(t, s, events).1) && Later(s, Run(t, s, events).1)
    decreases |events|
  {
    if events != [] {
      var (t', s') := Step(t, s, events[0]);
      StepKeeps(t, s, events[0]);
      RunForest(t', s', events[1..]);
      LaterTransitive(s, s', Run(t', s', events[1..]).1);
    }
  }

  lemma StepKeeps(t: Sql.Tables, s: Store, e: Event)
    requires Forest(s)
    ensures Forest(Step(t, s, e).1) && Later(s, Step(t, s, e).1)
  {
    if e.MessageEvent? {
      assert forall id :: id in s.messages ==> ReplySound(s, id);
      ExecForest(t, s, e.messageOp);
      ExecLater(t, s, e.messageOp);
    }
  }

  lemma LaterTransitive(a: Store, b: Store, c: Store)
    requires Later(a, b) && Later(b, c)
    ensures Later(a, c)
  {
  }

  /** A chain of replies stays in one chat, goes strictly back in insertion order, and ends in
      a message that replies to none. */
  ghost predicate ThreadSound(s: Store, id: Id)
    requires Forest(s) && id in s.messages
  {
    var r := Thread(s, id);
    && (forall x :: x in r ==> x in s.messages && s.messages[x].chat == s.messages[id].chat)
    && (forall i, j :: 0 <= i < j < |r| ==> Rank(s, r[i]) > Rank(s, r[j]))
    && r[|r| - 1] in s.messages && s.messages[r[|r| - 1]].replyTo.None?
  }

  /** Over every run of both use cases, replies form a forest. */
  lemma RepliesFormForest(t: Sql.Tables, s: Store, events: seq<Event>, id: Id)
    requires Empty(s) && id in Run(t, s, events).1.messages
    ensures Forest(Run(t, s, events).1) && ThreadSound(Run(t, s, events).1, id)
  {
    RunForest(t, s, events);
    ThreadInChat(Run(t, s, events).1, id);
    ThreadDescends(Run(t, s, events).1, id);
    ThreadHasRoot(Run(t, s, events).1, id);
  }

  /** Of two page requests, the later one finds the later store. */
  ghost predicate InTime(fetches: seq<(Store, nat)>)
  {
    forall i, j :: 0 <= i <= j < |fetches| ==> Later(fetches[i].0, fetches[j].0)
  }

  lemma LaterReflexive(s: Store)
    ensures Later(s, s)
  {
  }

  lemma {:induction false} FetchesInTime(t: Sql.Tables, s: Store, events: seq<Event>)
    requires Forest(s)
    ensures forall i :: 0 <= i < |Fetches(t, s, events)| ==>
              Later(s, Fetches(t, s, events)[i].0) && Forest(Fetches(t, s, events)[i].0)
    ensures InTime(Fetches(t, s, events))
    decreases |events|
  {
    if events != [] {
      var (t', s') := Step(t, s, events[0]);
      var all, rest := Fetches(t, s, events), Fetches(t', s', events[1..]);
      StepKeeps(t, s, events[0]);
      FetchesInTime(t', s', events[1..]);
      LaterReflexive(s);
      forall i | 0 <= i < |rest|
        ensures Later(s, rest[i].0)
      {
        LaterTransitive(s, s', rest[i].0);
      }
      if events[0].Fetch? { ConsInTime(all[0], rest); }
    }
  }

  lemma ConsInTime(first: (Store, nat), rest: seq<(Store, nat)>)
    requires InTime(rest) && Later(first.0, first.0)
    requires forall i :: 0 <= i < |rest| ==> Later(first.0, rest[i].0)
    ensures InTime([first] + rest)
  {
  }

  lemma OneKeyPerMessage(fetches: seq<(Store, nat)>, chat: Id, i: nat, j: nat, k: Key, l: Key)
    requires InTime(fetches) && i < |fetches| && j < |fetches|
    requires k in Older(fetches[i].0, chat, None) && l in Older(fetches[j].0, chat, None)
    ensures k.1 == l.1 ==> k == l
  {
    if k.1 == l.1 {
      var a, b := if i <= j then i else j, if i <= j then j else i;
      assert Later(fetches[a].0, fetches[b].0);
      assert SameIdentity(fetches[a].0.messages[k.1], fetches[b].0.messages[k.1]);
    }
  }

  /** Following the cursor while anything happens between the requests: the output descends
      strictly and shows no message twice; and once the walk is complete, every message that
      was live in the chat at every request is shown exactly once. */
  lemma PageWalkUnderChange(t: Sql.Tables, s: Store, events: seq<Event>, chat: Id, id: Id)
    requires Empty(s)
    ensures var out := History.Collect(Fetches(t, s, events), chat, None).0;
            && (forall i, j :: 0 <= i < j < |out| ==> out[i].1 != out[j].1)
            && (forall i, j :: 0 <= i < j < |out| ==>
                 out[i].0 > out[j].0 || (out[i].0 == out[j].0 && out[i].1 > out[j].1))
    ensures var fetches := Fetches(t, s, events);
            var (out, done) := History.Collect(fetches, chat, None);
            done && (forall i :: 0 <= i < |fetches| ==>
                       Live(fetches[i].0, id) && fetches[i].0.messages[id].chat == chat)
            ==> exists i :: 0 <= i < |out| && out[i].1 == id
  {
    var fetches := Fetches(t, s, events);
    var (out, done) := History.Collect(fetches, chat, None);
    FetchesInTime(t, s, events);
    History.CollectDescends(fetches, chat, None);
    NewerTotal();
    forall i, j | 0 <= i < j < |out|
      ensures out[i].1 != out[j].1 && Newer(out[i], out[j])
    {
      NoMessageTwice(fetches, chat, out[i], out[j]);
    }
    if done && forall i :: 0 <= i < |fetches| ==> Live(fetches[i].0, id) && fetches[i].0.messages[id].chat == chat {
      var k := (fetches[0].0.messages[id].createdAt, id);
      SameKeyThroughout(fetches, chat, id);
      History.CollectComplete(fetches, chat, None, k);
    }
  }

  lemma SameKeyThroughout(fetches: seq<(Store, nat)>, chat: Id, id: Id)
    requires InTime(fetches) && fetches != [] && Live(fetches[0].0, id)
    requires forall i :: 0 <= i < |fetches| ==> Live(fetches[i].0, id) && fetches[i].0.messages[id].chat == chat
    ensures forall i :: 0 <= i < |fetches| ==>
              (fetches[0].0.messages[id].createdAt, id) in Older(fetches[i].0, chat, None)
  {
    forall i | 0 <= i < |fetches|
      ensures (fetches[0].0.messages[id].createdAt, id) in Older(fetches[i].0, chat, None)
    {
      assert Later(fetches[0].0, fetches[i].0);
      assert SameIdentity(fetches[0].0.messages[id], fetches[i].0.messages[id]);
    }
  }

  lemma NoMessageTwice(fetches: seq<(Store, nat)>, chat: Id, k: Key, l: Key)
    requires InTime(fetches) && forall i :: 0 <= i < |fetches| ==> fetches[i].1 >= 1
    requires k in History.Collect(fetches, chat, None).0 && l in History.Collect(fetches, chat, None).0
    requires Newer(k, l)
    ensures k.1 != l.1
  {
    History.CollectSound(fetches, chat, None, k);
    History.CollectSound(fetches, chat, None, l);
    var i :| 0 <= i < |fetches| && k in Older(fetches[i].0, chat, None);
    var j :| 0 <= j < |fetches| && l in Older(fetches[j].0, chat, None);
    OneKeyPerMessage(fetches, chat, i, j, k, l);
  }
}
