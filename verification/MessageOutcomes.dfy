/** What each message use case amounts to: exactly when it succeeds, what it then answers and
    leaves, field by field, and why it refuses. A refusal leaves all as it was. */
module MessageOutcomes {
  import opened Wrappers
  import opened Domain
  import opened MessageTables
  import opened MessageUseCases
  import opened Uuids
  import History
  import Sql = ChatTables

  predicate In(t: Sql.Tables, chat: Id, user: Id) { (chat, user) in t.members }

  /** The message is there and not deleted. */
  predicate There(s: Store, id: Id) { id in s.messages && s.messages[id].deletedAt == None }

  predicate ValidContent(content: string) { 0 < |content| < 4097 }

  /** Somebody in the chat sends to it, perhaps in reply to a message of the chat; the message is
      stored as sent, last in the order of insertion. */
  lemma SendOutcome(t: Sql.Tables, s: Store, sender: Id, chat: Id, content: string, kind: string,
                    replyTo: Option<Id>, newId: Id, now: int)
    ensures var (r, s') := Exec(t, s, SendOp(sender, chat, content, kind, replyTo, newId, now));
            if chat == NIL || !ValidContent(content) || (kind != "text" && kind != "image" && kind != "file") then
              (r, s') == (Err(ErrValidation), s)
            else if !In(t, chat, sender) then (r, s') == (Err(ErrNotChatMember), s)
            else if replyTo.Some? && (replyTo.value !in s.messages || s.messages[replyTo.value].chat != chat) then
              (r, s') == (Err(ErrMessageNotFound), s)
            else if newId in s.messages then (r, s') == (Err(ErrStorage), s)
            else
              && s' == s.(messages := s'.messages, inserted := s.inserted + [newId])
              && s'.messages.Keys == s.messages.Keys + {newId}
              && (forall id :: id in s.messages ==> s'.messages[id] == s.messages[id])
              && r == Ok(MessageReply(s'.messages[newId]))
              && var m := s'.messages[newId];
              && m.id == newId && m.chat == chat && m.sender == sender
              && m.content == content && m.kind == kind && m.replyTo == replyTo
              && m.editedAt == None && m.deletedAt == None && m.createdAt == now && m.updatedAt == now
  {
  }

  /** Why nobody but the author, still in the chat, may edit or delete a message that is there. */
  ghost predicate Refused(t: Sql.Tables, s: Store, id: Id, caller: Id, e: Error)
  {
    if id !in s.messages then e == ErrMessageNotFound
    else if s.messages[id].deletedAt.Some? then e == ErrMessageDeleted
    else if s.messages[id].sender != caller then e == ErrNotMessageAuthor
    else !In(t, s.messages[id].chat, caller) && e == ErrNotChatMember
  }

  ghost predicate Own(t: Sql.Tables, s: Store, id: Id, caller: Id)
  {
    There(s, id) && s.messages[id].sender == caller && In(t, s.messages[id].chat, caller)
  }

  /** Only the message's content and the two times differ; everything else in the store is as it was. */
  lemma EditOutcome(t: Sql.Tables, s: Store, id: Id, caller: Id, content: string, now: int)
    requires IdsSound(s)
    ensures var (r, s') := Exec(t, s, EditOp(id, caller, content, now));
            if !ValidContent(content) then (r, s') == (Err(ErrValidation), s)
            else if !Own(t, s, id, caller) then r.Err? && Refused(t, s, id, caller, r.error) && s' == s
            else
              && s' == s.(messages := s.messages[id := s'.messages[id]]) && r == Ok(MessageReply(s'.messages[id]))
              && var m, m' := s.messages[id], s'.messages[id];
              && m'.id == m.id && m'.chat == m.chat && m'.sender == m.sender && m'.kind == m.kind
              && m'.replyTo == m.replyTo && m'.createdAt == m.createdAt && m'.deletedAt == None
              && m'.content == content && m'.editedAt == Some(now) && m'.updatedAt == now
  {
  }

  /** Only the mark of deletion and the time of the last change differ; the content stays stored. */
  lemma DeleteOutcome(t: Sql.Tables, s: Store, id: Id, caller: Id, dbNow: int)
    requires IdsSound(s)
    ensures var (r, s') := Exec(t, s, DeleteOp(id, caller, dbNow));
            if !Own(t, s, id, caller) then r.Err? && Refused(t, s, id, caller, r.error) && s' == s
            else
              && r == Ok(Done) && s' == s.(messages := s.messages[id := s'.messages[id]])
              && var m, m' := s.messages[id], s'.messages[id];
              && m'.id == m.id && m'.chat == m.chat && m'.sender == m.sender && m'.kind == m.kind
              && m'.replyTo == m.replyTo && m'.createdAt == m.createdAt && m'.editedAt == m.editedAt
              && m'.content == m.content && m'.deletedAt == Some(dbNow) && m'.updatedAt == dbNow
  {
  }

  lemma ReadOutcome(t: Sql.Tables, s: Store, chat: Id, caller: Id, dbNow: int)
    ensures var (r, s') := Exec(t, s, ReadOp(chat, caller, dbNow));
            if !In(t, chat, caller) then (r, s') == (Err(ErrNotChatMember), s)
            else (r, s') == (Ok(Done), s.(receipts := s.receipts[(chat, caller) := dbNow]))
  {
  }

  /** What is unread: the live messages of others since the last reading, or since the epoch. */
  lemma UnreadMeans(s: Store, chat: Id, user: Id, id: Id)
    ensures id in Unread(s, chat, user) <==>
              There(s, id) && s.messages[id].chat == chat && s.messages[id].sender != user &&
              s.messages[id].createdAt > if (chat, user) in s.receipts then s.receipts[(chat, user)] else 0
    ensures GetUnreadCount(s, chat, user) == |Unread(s, chat, user)|
  {
  }

  // ---- Reactions ----

  ghost predicate ReactionRefused(t: Sql.Tables, s: Store, id: Id, caller: Id, emoji: string, e: Error)
  {
    if !(0 < |emoji| < 11) then e == ErrValidation
    else if id !in s.messages then e == ErrMessageNotFound
    else if s.messages[id].deletedAt.Some? then e == ErrMessageDeleted
    else !In(t, s.messages[id].chat, caller) && e == ErrNotChatMember
  }

  ghost predicate MayReactTo(t: Sql.Tables, s: Store, id: Id, caller: Id, emoji: string)
  {
    0 < |emoji| < 11 && There(s, id) && In(t, s.messages[id].chat, caller)
  }

  /** Afterwards the reaction is there, from now or, if it was already, from when it was. */
  lemma ReactOutcome(t: Sql.Tables, s: Store, id: Id, caller: Id, emoji: string, now: int)
    ensures var (r, s') := Exec(t, s, ReactOp(id, caller, emoji, now));
            if !MayReactTo(t, s, id, caller, emoji) then
              r.Err? && ReactionRefused(t, s, id, caller, emoji, r.error) && s' == s
            else
              var k := (id, caller, emoji);
              && r == Ok(Done) && s' == s.(reactions := s'.reactions)
              && s'.reactions.Keys == s.reactions.Keys + {k}
              && (forall q :: q in s.reactions ==> s'.reactions[q] == s.reactions[q])
              && (k !in s.reactions ==> s'.reactions[k] == now)
  {
  }

  /** Afterwards the reaction is not there, whether or not it was; all others are. */
  lemma UnreactOutcome(t: Sql.Tables, s: Store, id: Id, caller: Id, emoji: string)
    ensures var (r, s') := Exec(t, s, UnreactOp(id, caller, emoji));
            if !MayReactTo(t, s, id, caller, emoji) then
              r.Err? && ReactionRefused(t, s, id, caller, emoji, r.error) && s' == s
            else
              && r == Ok(Done) && s' == s.(reactions := s'.reactions)
              && s'.reactions.Keys == s.reactions.Keys - {(id, caller, emoji)}
              && (forall q :: q in s'.reactions ==> s'.reactions[q] == s.reactions[q])
  {
  }

  // ---- History ----

  /** Of two messages, the later by creation time, then by id. */
  predicate After(a: Message, b: Message)
  {
    a.createdAt > b.createdAt || (a.createdAt == b.createdAt && a.id > b.id)
  }

  /** A message that a page from the cursor on may show. */
  predicate Eligible(s: Store, chat: Id, cursor: Option<Key>, m: Message)
  {
    m.id in s.messages && s.messages[m.id] == m && m.deletedAt == None && m.chat == chat &&
    (cursor.Some? ==> m.createdAt < cursor.value.0 || (m.createdAt == cursor.value.0 && m.id < cursor.value.1))
  }

  /** A page: the newest eligible messages, newest first, up to the limit and no fewer than there
      are; the cursor to go on from is the last of a full page. */
  ghost predicate IsPage(s: Store, chat: Id, cursor: Option<Key>, limit: nat, msgs: seq<Message>, next: Option<Key>)
  {
    && |msgs| <= limit
    && (forall i :: 0 <= i < |msgs| ==> Eligible(s, chat, cursor, msgs[i]))
    && (forall i, j :: 0 <= i < j < |msgs| ==> After(msgs[i], msgs[j]))
    && (forall m :: Eligible(s, chat, cursor, m) ==> m in msgs || LeftOver(msgs, limit, m))
    && next == if |msgs| < limit || limit == 0 then None
               else Some((msgs[limit - 1].createdAt, msgs[limit - 1].id))
  }

  predicate LeftOver(msgs: seq<Message>, limit: nat, m: Message)
  {
    |msgs| == limit > 0 && After(msgs[limit - 1], m)
  }

  function Messages(p: Page): seq<Message>
  {
    seq(|p.messages|, i requires 0 <= i < |p.messages| => p.messages[i].message)
  }

  /** A message's reactions by known users, each once, by time, then user. */
  ghost predicate AreReactions(s: Store, users: set<Id>, id: Id, rs: seq<ReactionKey>)
  {
    && (forall at, user, emoji :: (at, user, emoji) in rs <==>
         (id, user, emoji) in s.reactions && s.reactions[(id, user, emoji)] == at && user in users)
    && (forall i, j :: 0 <= i < j < |rs| ==> rs[i] != rs[j])
    && (forall i, j :: 0 <= i < j < |rs| ==> rs[i].0 < rs[j].0 || (rs[i].0 == rs[j].0 && rs[i].1 <= rs[j].1))
  }

  lemma ReactionsAre(s: Store, users: set<Id>, id: Id)
    ensures AreReactions(s, users, id, GetReactions(s, users, id))
  {
    EarlierTotal();
    var rs := GetReactions(s, users, id);
    forall at: int, user: Id, emoji: string
      ensures (at, user, emoji) in rs <==>
                (id, user, emoji) in s.reactions && s.reactions[(id, user, emoji)] == at && user in users
    {
      assert (at, user, emoji) in rs <==> (at, user, emoji) in ReactionKeys(s, users, id);
    }
  }

  lemma RowsEligible(s: Store, chat: Id, cursor: Option<Key>, limit: nat)
    requires IdsSound(s)
    ensures var msgs, keys := GetChatMessages(s, chat, cursor, limit), PageKeys(s, chat, cursor, limit);
            |msgs| == |keys| && forall i :: 0 <= i < |keys| ==>
              KeyOf(msgs[i]) == keys[i] && Eligible(s, chat, cursor, msgs[i])
  {
    var keys := PageKeys(s, chat, cursor, limit);
    assert forall i :: 0 <= i < |keys| ==> keys[i] in Older(s, chat, cursor);
  }

  lemma EligibleShown(s: Store, chat: Id, cursor: Option<Key>, limit: nat, m: Message)
    requires IdsSound(s) && Eligible(s, chat, cursor, m)
    ensures var msgs := GetChatMessages(s, chat, cursor, limit); m in msgs || limit == 0 || LeftOver(msgs, limit, m)
  {
    var all, msgs := History.Listing(s, chat, cursor), GetChatMessages(s, chat, cursor, limit);
    History.PageIsPrefix(s, chat, cursor, limit);
    RowsEligible(s, chat, cursor, limit);
    assert KeyOf(m) in Older(s, chat, cursor) && KeyOf(m) in all;
    var k :| 0 <= k < |all| && all[k] == KeyOf(m);
    if k < |msgs| {
      assert msgs[k].id == m.id && msgs[k] == m;
    } else if limit > 0 {
      assert Newer(all[limit - 1], all[k]) && KeyOf(msgs[limit - 1]) == all[limit - 1];
    }
  }

  lemma RowsArePage(s: Store, chat: Id, cursor: Option<Key>, limit: nat)
    requires IdsSound(s) && limit >= 1
    ensures IsPage(s, chat, cursor, limit, GetChatMessages(s, chat, cursor, limit),
                   History.NextCursor(PageKeys(s, chat, cursor, limit), limit))
  {
    var msgs, keys := GetChatMessages(s, chat, cursor, limit), PageKeys(s, chat, cursor, limit);
    RowsEligible(s, chat, cursor, limit);
    History.PageDescends(s, chat, cursor, limit);
    forall i, j | 0 <= i < j < |msgs|
      ensures After(msgs[i], msgs[j])
    {
      assert Newer(keys[i], keys[j]);
    }
    forall m | Eligible(s, chat, cursor, m)
      ensures m in msgs || LeftOver(msgs, limit, m)
    {
      EligibleShown(s, chat, cursor, limit, m);
    }
  }

  /** Members are shown the page they ask for, each message with its own reactions; a page size
      out of bounds is replaced. */
  lemma HistoryOutcome(t: Sql.Tables, s: Store, chat: Id, caller: Id, cursor: Option<Key>, limit: int)
    requires IdsSound(s)
    ensures var (r, s') := Exec(t, s, HistoryOp(chat, caller, cursor, limit));
            && s' == s
            && if !In(t, chat, caller) then r == Err(ErrNotChatMember) else
               && r.Ok? && r.value.PageReply?
               && IsPage(s, chat, cursor, if limit < 1 then 30 else if limit > 100 then 100 else limit,
                         Messages(r.value.page), r.value.page.next)
               && forall i :: 0 <= i < |r.value.page.messages| ==>
                    AreReactions(s, t.users, r.value.page.messages[i].message.id, r.value.page.messages[i].reactions)
  {
    if In(t, chat, caller) {
      var n := History.Clamp(limit);
      var page, msgs := GetHistory(t, s, caller, chat, cursor, n).value.page, GetChatMessages(s, chat, cursor, n);
      RowsArePage(s, chat, cursor, n);
      assert Messages(page) == msgs;
      forall i | 0 <= i < |page.messages|
        ensures AreReactions(s, t.users, page.messages[i].message.id, page.messages[i].reactions)
      {
        ReactionsAre(s, t.users, msgs[i].id);
      }
    }
  }
}
