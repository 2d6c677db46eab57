/** The message repository as statements on tables. */
module MessageTables {
  import opened Wrappers
  import opened Domain
  import Lexicographic
  import Ordering

  datatype Message = Message(
    id: Id, chat: Id, sender: Id, content: string, kind: string, replyTo: Option<Id>,
    editedAt: Option<int>, deletedAt: Option<int>, createdAt: int, updatedAt: int)

  /** `inserted` lists the message ids in insertion order; no statement reads it. */
  datatype Store = Store(
    messages: map<Id, Message>,
    inserted: seq<Id>,
    receipts: map<(Id, Id), int>,               // (chat_id, user_id) -> last_read_at
    reactions: map<(Id, Id, string), int>)      // (message_id, user_id, emoji) -> created_at

  /** (created_at, id): the sort key of the history, and the cursor. */
  type Key = (int, Id)

  predicate Newer(a: Key, b: Key)
  {
    a.0 > b.0 || (a.0 == b.0 && a.1 > b.1)
  }

  lemma NewerTotal()
    ensures Ordering.StrictTotal(Newer)
  {
  }

  function KeyOf(m: Message): Key { (m.createdAt, m.id) }

  predicate Live(s: Store, id: Id)
  {
    id in s.messages && s.messages[id].deletedAt.None?
  }

  /** WHERE chat_id = chat AND deleted_at IS NULL AND (created_at, id) < cursor */
  function Older(s: Store, chat: Id, cursor: Option<Key>): set<Key>
  {
    set id | id in s.messages.Keys && Live(s, id) && s.messages[id].chat == chat &&
             (cursor.Some? ==> Newer(cursor.value, (s.messages[id].createdAt, id)))
      :: (s.messages[id].createdAt, id)
  }

  function Take<A>(q: seq<A>, n: nat): seq<A>
  {
    if |q| <= n then q else q[..n]
  }

  /** ORDER BY created_at DESC, id DESC LIMIT limit */
  function PageKeys(s: Store, chat: Id, cursor: Option<Key>, limit: nat): (page: seq<Key>)
    ensures forall i :: 0 <= i < |page| ==> page[i] in Older(s, chat, cursor)
  {
    NewerTotal();
    var all := Ordering.Listed(Newer, Older(s, chat, cursor));
    assert forall i :: 0 <= i < |all| ==> all[i] in all;
    Take(all, limit)
  }

  function GetChatMessages(s: Store, chat: Id, cursor: Option<Key>, limit: nat): (r: seq<Message>)
    ensures |r| == |PageKeys(s, chat, cursor, limit)|
  {
    var page := PageKeys(s, chat, cursor, limit);
    seq(|page|, i requires 0 <= i < |page| =>
      assert page[i] in Older(s, chat, cursor);
      s.messages[page[i].1])
  }

  function GetByID(s: Store, id: Id): Result<Message>
  {
    if id in s.messages then Ok(s.messages[id]) else Err(ErrMessageNotFound)
  }

  // ---- Writes ----

  /** Primary key, the foreign key of the reply, and the CHECKs on the content; the chat and
      the sender are known, since the sender is a member of the chat. */
  function Create(s: Store, m: Message): Result<Store>
  {
    if m.id in s.messages || !(1 <= |m.content| <= 4096) || (m.replyTo.Some? && m.replyTo.value !in s.messages)
      then Err(ErrStorage)
      else Ok(s.(messages := s.messages[m.id := m], inserted := s.inserted + [m.id]))
  }

  function Update(s: Store, m: Message): Result<Store>
  {
    if !Live(s, m.id) then Err(ErrMessageNotFound)
    else if !(1 <= |m.content| <= 4096) then Err(ErrStorage)
    else Ok(s.(messages := s.messages[m.id :=
      s.messages[m.id].(content := m.content, editedAt := m.editedAt, updatedAt := m.updatedAt)]))
  }

  function Delete(s: Store, id: Id, dbNow: int): Result<Store>
  {
    if !Live(s, id) then Err(ErrMessageNotFound)
    else Ok(s.(messages := s.messages[id := s.messages[id].(deletedAt := Some(dbNow), updatedAt := dbNow)]))
  }

  function MarkRead(s: Store, chat: Id, user: Id, dbNow: int): Store
  {
    s.(receipts := s.receipts[(chat, user) := dbNow])
  }

  /** ON CONFLICT DO NOTHING: the first one stays. */
  function AddReaction(s: Store, message: Id, user: Id, emoji: string, now: int): Store
  {
    if (message, user, emoji) in s.reactions then s
    else s.(reactions := s.reactions[(message, user, emoji) := now])
  }

  function RemoveReaction(s: Store, message: Id, user: Id, emoji: string): Store
  {
    s.(reactions := s.reactions - {(message, user, emoji)})
  }

  // ---- Unread messages ----

  const EPOCH: int := 0

  function LastRead(s: Store, chat: Id, user: Id): int
  {
    if (chat, user) in s.receipts then s.receipts[(chat, user)] else EPOCH
  }

  function Unread(s: Store, chat: Id, user: Id): set<Id>
  {
    set id | id in s.messages.Keys && s.messages[id].chat == chat && s.messages[id].sender != user &&
             Live(s, id) && s.messages[id].createdAt > LastRead(s, chat, user)
  }

  function GetUnreadCount(s: Store, chat: Id, user: Id): nat
  {
    |Unread(s, chat, user)|
  }

  // ---- Reactions ----

  /** (created_at, user_id, emoji) */
  type ReactionKey = (int, Id, string)

  function Codes(s: string): (r: seq<int>)
    ensures |r| == |s| && forall i :: 0 <= i < |s| ==> r[i] == s[i] as int
  {
    seq(|s|, i requires 0 <= i < |s| => s[i] as int)
  }

  predicate Earlier(a: ReactionKey, b: ReactionKey)
  {
    a.0 < b.0 || (a.0 == b.0 && (a.1 < b.1 || (a.1 == b.1 && Lexicographic.Less(Codes(a.2), Codes(b.2)))))
  }

  /** ORDER BY message_id, created_at, user_id, emoji */
  predicate EarlierRow(a: (Id, ReactionKey), b: (Id, ReactionKey))
  {
    a.0 < b.0 || (a.0 == b.0 && Earlier(a.1, b.1))
  }

  lemma CodesInjective(a: string, b: string)
    requires Codes(a) == Codes(b)
    ensures a == b
  {
    forall i | 0 <= i < |a|
      ensures a[i] == b[i]
    {
      assert Codes(a)[i] == Codes(b)[i];
    }
  }

  lemma EarlierTotal()
    ensures Ordering.StrictTotal(Earlier)
    ensures Ordering.StrictTotal(EarlierRow)
  {
    forall a: ReactionKey
      ensures !Earlier(a, a)
    {
      Lexicographic.Irreflexive(Codes(a.2));
    }
    forall a: ReactionKey, b: ReactionKey, c: ReactionKey | Earlier(a, b) && Earlier(b, c)
      ensures Earlier(a, c)
    {
      if a.0 == b.0 == c.0 && a.1 == b.1 == c.1 {
        Lexicographic.Transitive(Codes(a.2), Codes(b.2), Codes(c.2));
      }
    }
    forall a: ReactionKey, b: ReactionKey
      ensures a == b || Earlier(a, b) || Earlier(b, a)
    {
      Lexicographic.Trichotomous(Codes(a.2), Codes(b.2));
      if Codes(a.2) == Codes(b.2) { CodesInjective(a.2, b.2); }
    }
  }

  /** Rows of one message; the join keeps those of live users. */
  function ReactionKeys(s: Store, users: set<Id>, message: Id): set<ReactionKey>
  {
    set r | r in s.reactions.Keys && r.0 == message && r.1 in users :: (s.reactions[r], r.1, r.2)
  }

  function GetReactions(s: Store, users: set<Id>, message: Id): seq<ReactionKey>
  {
    EarlierTotal();
    Ordering.Listed(Earlier, ReactionKeys(s, users, message))
  }

  /** Rows of all listed messages, in the batch query's order. */
  function BatchRows(s: Store, users: set<Id>, messages: seq<Id>): seq<(Id, ReactionKey)>
  {
    EarlierTotal();
    Ordering.Listed(EarlierRow,
      set r | r in s.reactions.Keys && r.0 in messages && r.1 in users :: (r.0, (s.reactions[r], r.1, r.2)))
  }
}
