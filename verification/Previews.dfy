/** The chat list: each chat with its last message and unread count, computed for all chats at
    once, in two dialects. Postgres keeps the first row of each chat (DISTINCT ON) and orders
    ids by bytes; MySQL numbers the rows of each chat (ROW_NUMBER) and orders ids by text. */
module Previews {
  import opened Wrappers
  import opened Domain
  import opened Uuids
  import opened MessageTables
  import Lexicographic
  import Ordering
  import History
  import Sql = ChatTables

  function UserChats(t: Sql.Tables, user: Id): set<Id>
  {
    set c | c in t.chats.Keys && Sql.Live(t, c) && Sql.IsMember(t, c, user)
  }

  // ---- Ids ordered as text ----

  predicate NewerText(a: Key, b: Key)
  {
    a.0 > b.0 ||
    (a.0 == b.0 && Lexicographic.Less(Weights(Text(b.1), AsciiGeneralCi), Weights(Text(a.1), AsciiGeneralCi)))
  }

  lemma TextOrderIsByteOrder(a: Key, b: Key)
    ensures NewerText(a, b) <==> Newer(a, b)
  {
    CollationsOrderHex();
    TextOrdersAsBytes(b.1, a.1, AsciiGeneralCi);
  }

  lemma NewerTextTotal()
    ensures Ordering.StrictTotal(NewerText)
    ensures forall a: Key, b: Key :: NewerText(a, b) <==> Newer(a, b)
  {
    forall a: Key, b: Key
      ensures NewerText(a, b) <==> Newer(a, b)
    {
      TextOrderIsByteOrder(a, b);
    }
    NewerTotal();
  }

  /** The history query over CHAR(36) ids. */
  function OlderText(s: Store, chat: Id, cursor: Option<Key>): set<Key>
  {
    set id | id in s.messages.Keys && Live(s, id) && s.messages[id].chat == chat &&
             (cursor.Some? ==> NewerText(cursor.value, (s.messages[id].createdAt, id)))
      :: (s.messages[id].createdAt, id)
  }

  function PageKeysText(s: Store, chat: Id, cursor: Option<Key>, limit: nat): seq<Key>
  {
    NewerTextTotal();
    Take(Ordering.Listed(NewerText, OlderText(s, chat, cursor)), limit)
  }

  /** Both dialects serve the same pages. */
  lemma PagesAgree(s: Store, chat: Id, cursor: Option<Key>, limit: nat)
    ensures PageKeysText(s, chat, cursor, limit) == PageKeys(s, chat, cursor, limit)
  {
    NewerTextTotal();
    NewerTotal();
    var a, b := Ordering.Listed(NewerText, OlderText(s, chat, cursor)), Ordering.Listed(Newer, Older(s, chat, cursor));
    assert OlderText(s, chat, cursor) == Older(s, chat, cursor);
    Ordering.AscendingUnique(Newer, a, b);
  }

  // ---- The last message of each chat ----

  type Row = (Id, Key)

  function LiveRows(s: Store, chats: set<Id>): set<Row>
  {
    set id | id in s.messages.Keys && Live(s, id) && s.messages[id].chat in chats
      :: (s.messages[id].chat, (s.messages[id].createdAt, id))
  }

  /** ORDER BY chat_id, created_at DESC, id DESC */
  predicate ByChatThenNewer(a: Row, b: Row)
  {
    a.0 < b.0 || (a.0 == b.0 && Newer(a.1, b.1))
  }

  /** DISTINCT ON (chat_id): of each run of rows with the same chat, the first. */
  function DistinctOn(rows: seq<Row>): set<Row>
  {
    set i | 0 <= i < |rows| && StartsRun(rows, i) :: rows[i]
  }

  predicate StartsRun(rows: seq<Row>, i: nat)
    requires i < |rows|
  {
    i == 0 || rows[i - 1].0 != rows[i].0
  }

  function LastRowsPostgres(s: Store, chats: set<Id>): set<Row>
  {
    NewerTotal();
    DistinctOn(Ordering.Listed(ByChatThenNewer, LiveRows(s, chats)))
  }

  /** ROW_NUMBER() OVER (PARTITION BY chat_id ORDER BY created_at DESC, id DESC) */
  function RowNumber(rows: set<Row>, row: Row): nat
  {
    1 + |set r | r in rows && r.0 == row.0 && NewerText(r.1, row.1)|
  }

  function LastRowsMySQL(s: Store, chats: set<Id>): set<Row>
  {
    var rows := LiveRows(s, chats);
    set row | row in rows && RowNumber(rows, row) == 1
  }

  /** The newest row of its chat. */
  ghost predicate Newest(rows: set<Row>, row: Row)
  {
    row in rows && forall r :: r in rows && r.0 == row.0 && r != row ==> Newer(row.1, r.1)
  }

  lemma DistinctOnIsNewest(rows: set<Row>)
    requires Ordering.StrictTotal(ByChatThenNewer)
    ensures forall row :: row in DistinctOn(Ordering.Listed(ByChatThenNewer, rows)) <==> Newest(rows, row)
  {
    var all := Ordering.Listed(ByChatThenNewer, rows);
    forall i | 0 <= i < |all|
      ensures StartsRun(all, i) <==> Newest(rows, all[i])
    {
      RunStart(rows, all, i);
    }
    forall row: Row
      ensures row in DistinctOn(all) <==> Newest(rows, row)
    {
      if Newest(rows, row) {
        assert row in all;
        var i :| 0 <= i < |all| && all[i] == row;
      }
    }
  }

  /** Rows of one chat stand together. */
  lemma SameRun(all: seq<Row>, j: nat, i: nat)
    requires Ordering.Ascending(ByChatThenNewer, all) && i < |all| && j < |all| && all[j].0 == all[i].0
    ensures j < i ==> !StartsRun(all, i)
  {
    if j < i {
      assert j == i - 1 || ByChatThenNewer(all[j], all[i - 1]);
      assert ByChatThenNewer(all[i - 1], all[i]);
    }
  }

  lemma RunStart(rows: set<Row>, all: seq<Row>, i: nat)
    requires Ordering.Ascending(ByChatThenNewer, all) && i < |all|
    requires forall r :: r in all <==> r in rows
    ensures StartsRun(all, i) <==> Newest(rows, all[i])
  {
    if !StartsRun(all, i) {
      assert ByChatThenNewer(all[i - 1], all[i]);
      assert all[i - 1] in rows && !Newer(all[i].1, all[i - 1].1);
    } else {
      forall r: Row | r in rows && r.0 == all[i].0 && r != all[i]
        ensures Newer(all[i].1, r.1)
      {
        assert r in all;
        var j :| 0 <= j < |all| && all[j] == r;
        SameRun(all, j, i);
        assert i < j;
        assert ByChatThenNewer(all[i], all[j]);
      }
    }
  }

  lemma RowNumberOneIsNewest(rows: set<Row>, row: Row)
    requires row in rows
    ensures RowNumber(rows, row) == 1 <==> Newest(rows, row)
  {
    NewerTextTotal();
    var ahead := set r | r in rows && r.0 == row.0 && NewerText(r.1, row.1);
    assert RowNumber(rows, row) == 1 + |ahead|;
    if ahead == {} {
      forall r: Row | r in rows && r.0 == row.0 && r != row
        ensures Newer(row.1, r.1)
      {
        assert r !in ahead;
      }
    } else {
      var r :| r in ahead;
      assert !Newer(row.1, r.1);
    }
  }

  /** Both queries find, for each chat, the row that the history query lists first. */
  lemma LastRowsAgree(s: Store, chats: set<Id>)
    ensures LastRowsPostgres(s, chats) == LastRowsMySQL(s, chats)
    ensures forall row :: row in LastRowsPostgres(s, chats) <==> Newest(LiveRows(s, chats), row)
  {
    NewerTotal();
    var rows := LiveRows(s, chats);
    DistinctOnIsNewest(rows);
    forall row: Row
      ensures row in LastRowsMySQL(s, chats) <==> Newest(rows, row)
    {
      if row in rows { RowNumberOneIsNewest(rows, row); }
    }
  }

  /** What the chat list shows of a message. */
  datatype Brief = Brief(id: Id, chat: Id, sender: Id, content: string, kind: string, createdAt: int, updatedAt: int)

  datatype Preview = Preview(chat: Chat, last: Option<Brief>, unread: nat)

  function BriefOf(m: Message): Brief
  {
    Brief(m.id, m.chat, m.sender, m.content, m.kind, m.createdAt, m.updatedAt)
  }

  /** LEFT JOIN last_messages lm ON lm.chat_id = uc.id; there is at most one row to join. */
  ghost function Joined(s: Store, rows: set<Row>, chat: Id): Option<Brief>
  {
    if r :| r in rows && r.0 == chat && r.1.1 in s.messages then Some(BriefOf(s.messages[r.1.1])) else None
  }

  // ---- Unread counts ----

  /** The rows of the unread query for all chats at once; receipts are looked up per row. */
  function UnreadRows(s: Store, chats: set<Id>, user: Id): set<Id>
  {
    set id | id in s.messages.Keys && s.messages[id].chat in chats && s.messages[id].sender != user &&
             Live(s, id) && s.messages[id].createdAt > LastRead(s, s.messages[id].chat, user)
  }

  /** SELECT chat_id, COUNT(*) ... GROUP BY chat_id: chats without a row are absent. */
  function UnreadGroups(s: Store, chats: set<Id>, user: Id): map<Id, nat>
  {
    var rows := UnreadRows(s, chats, user);
    var present := set id | id in rows && id in s.messages :: s.messages[id].chat;
    map c | c in present :: |set id | id in rows && id in s.messages && s.messages[id].chat == c|
  }

  function Counted(groups: map<Id, nat>, chat: Id): nat
  {
    if chat in groups then groups[chat] else 0
  }

  lemma GroupedCountAgrees(s: Store, chats: set<Id>, user: Id, chat: Id)
    requires chat in chats
    ensures Counted(UnreadGroups(s, chats, user), chat) == GetUnreadCount(s, chat, user)
  {
    var rows := UnreadRows(s, chats, user);
    var mine := set id | id in rows && id in s.messages && s.messages[id].chat == chat;
    assert mine == Unread(s, chat, user);
    assert forall id :: id in mine ==> s.messages[id].chat in UnreadGroups(s, chats, user);
    assert chat !in UnreadGroups(s, chats, user) ==> mine == {};
  }

  ghost function GetUserChats(t: Sql.Tables, s: Store, user: Id): map<Id, Preview>
  {
    var chats := UserChats(t, user);
    var last := if t.dialect.Postgres? then LastRowsPostgres(s, chats) else LastRowsMySQL(s, chats);
    map c | c in chats ::
      Preview(t.chats[c], Joined(s, last, c), Counted(UnreadGroups(s, chats, user), c))
  }

  lemma HeadIsNewest(s: Store, chats: set<Id>, chat: Id)
    requires chat in chats
    ensures var page := PageKeys(s, chat, None, 1);
            if page == [] then forall r :: r in LiveRows(s, chats) ==> r.0 != chat
            else Newest(LiveRows(s, chats), (chat, page[0]))
  {
    var all := History.Listing(s, chat, None);
    History.PageIsPrefix(s, chat, None, 1);
    forall r | r in LiveRows(s, chats) && r.0 == chat
      ensures r.1 in all
    {
      assert r.1 in Older(s, chat, None);
    }
    if all != [] {
      assert all[0] in all;
      assert all[0] in Older(s, chat, None);
      forall r: Row | r in LiveRows(s, chats) && r.0 == chat && r != (chat, all[0])
        ensures Newer(all[0], r.1)
      {
        var i :| 0 <= i < |all| && all[i] == r.1;
      }
    }
  }

  lemma JoinedIsHead(s: Store, chats: set<Id>, last: set<Row>, chat: Id)
    requires chat in chats
    requires forall row :: row in last <==> Newest(LiveRows(s, chats), row)
    ensures var head := GetChatMessages(s, chat, None, 1);
            Joined(s, last, chat) == if head == [] then None else Some(BriefOf(head[0]))
  {
    HeadIsNewest(s, chats, chat);
    var page, rows := PageKeys(s, chat, None, 1), LiveRows(s, chats);
    if page != [] {
      assert page[0] in Older(s, chat, None);
      assert (chat, page[0]) in last;
      NewestUnique(rows, chat, page[0]);
      assert forall r :: r in last && r.0 == chat ==> r == (chat, page[0]);
    } else {
      assert forall r :: r in last ==> r in rows;
    }
  }

  /** For every store and either dialect: a chat's preview shows the first message of its
      history, if any, and exactly the count the single-chat query gives. */
  lemma PreviewsAgree(t: Sql.Tables, s: Store, user: Id, chat: Id)
    requires chat in UserChats(t, user)
    ensures var p, head := GetUserChats(t, s, user)[chat], GetChatMessages(s, chat, None, 1);
            && p.chat == t.chats[chat]
            && p.unread == GetUnreadCount(s, chat, user)
            && (p.last.Some? <==> head != [])
            && (head != [] ==>
                 var b, m := p.last.value, head[0];
                 && b.id == m.id && b.chat == m.chat && b.sender == m.sender && b.content == m.content
                 && b.kind == m.kind && b.createdAt == m.createdAt && b.updatedAt == m.updatedAt)
  {
    var chats := UserChats(t, user);
    GroupedCountAgrees(s, chats, user, chat);
    LastRowsAgree(s, chats);
    JoinedIsHead(s, chats, LastRowsPostgres(s, chats), chat);
  }

  lemma NewestUnique(rows: set<Row>, chat: Id, k: Key)
    requires Newest(rows, (chat, k))
    ensures forall r :: Newest(rows, r) && r.0 == chat ==> r == (chat, k)
  {
    NewerTotal();
    forall r: Row | Newest(rows, r) && r.0 == chat
      ensures r == (chat, k)
    {
      assert r == (chat, k) || (Newer(k, r.1) && Newer(r.1, k));
    }
  }

  // ---- The order of the list ----

  /** COALESCE(lm.created_at, uc.created_at) */
  function Activity(p: Preview): int
  {
    if p.last.Some? then p.last.value.createdAt else p.chat.createdAt
  }

  predicate Distinct(ids: seq<Id>)
  {
    forall i, j :: 0 <= i < j < |ids| ==> ids[i] != ids[j]
  }

  ghost predicate Descending(key: map<Id, int>, ids: seq<Id>)
  {
    (forall i :: 0 <= i < |ids| ==> ids[i] in key) &&
    (forall i, j :: 0 <= i < j < |ids| ==> key[ids[i]] >= key[ids[j]])
  }

  ghost function Activities(t: Sql.Tables, s: Store, user: Id): map<Id, int>
  {
    map c | c in GetUserChats(t, s, user) :: Activity(GetUserChats(t, s, user)[c])
  }

  /** A list of chats that the query may answer: each chat of the user once, the one with the
      latest activity first, those of equal activity in any order. */
  ghost predicate ChatList(t: Sql.Tables, s: Store, user: Id, ids: seq<Id>)
  {
    && Distinct(ids)
    && (forall c :: c in ids <==> c in UserChats(t, user))
    && Descending(Activities(t, s, user), ids)
  }

  lemma {:induction false} ElementsOf(ids: seq<Id>) returns (elements: set<Id>)
    requires Distinct(ids)
    ensures |elements| == |ids| && forall c :: c in elements <==> c in ids
    decreases |ids|
  {
    if ids == [] {
      elements := {};
    } else {
      var rest := ElementsOf(ids[1..]);
      assert ids[0] !in ids[1..];
      elements := {ids[0]} + rest;
    }
  }

  lemma {:induction false} Contained(a: set<Id>, b: set<Id>)
    requires a <= b
    ensures |a| <= |b|
    decreases a
  {
    if a != {} {
      var x :| x in a;
      Contained(a - {x}, b - {x});
    }
  }

  /** The i-th key of a descending list is no greater than that of another descending list of the
      same elements: else i + 1 of them would have to stand in the other's first i places. */
  lemma NoGreater(key: map<Id, int>, a: seq<Id>, b: seq<Id>, i: nat)
    requires Distinct(a) && Distinct(b) && (forall c :: c in a ==> c in b)
    requires Descending(key, a) && Descending(key, b) && i < |a| && i < |b|
    ensures key[a[i]] <= key[b[i]]
  {
    if key[a[i]] > key[b[i]] {
      var first := ElementsOf(a[..i + 1]);
      var places := ElementsOf(b[..i]);
      forall c: Id | c in first
        ensures c in places
      {
        var j :| 0 <= j < i + 1 && a[j] == c;
        assert a[j] in b;
        var k :| 0 <= k < |b| && b[k] == c;
        assert key[b[k]] > key[b[i]];
        assert b[..i][k] == c;
      }
      Contained(first, places);
      assert false;
    }
  }

  lemma SameKeys(key: map<Id, int>, a: seq<Id>, b: seq<Id>)
    requires Distinct(a) && Distinct(b) && (forall c :: c in a <==> c in b)
    requires Descending(key, a) && Descending(key, b)
    ensures |a| == |b| && forall i :: 0 <= i < |a| ==> key[a[i]] == key[b[i]]
  {
    var xs := ElementsOf(a);
    var ys := ElementsOf(b);
    assert xs == ys;
    forall i | 0 <= i < |a|
      ensures key[a[i]] == key[b[i]]
    {
      NoGreater(key, a, b, i);
      NoGreater(key, b, a, i);
    }
  }

  lemma DialectsAgree(t: Sql.Tables, s: Store, user: Id)
    ensures GetUserChats(t.(dialect := Sql.Postgres), s, user) == GetUserChats(t.(dialect := Sql.MySQL), s, user)
    ensures UserChats(t.(dialect := Sql.Postgres), user) == UserChats(t.(dialect := Sql.MySQL), user)
  {
    var chats := UserChats(t, user);
    assert UserChats(t.(dialect := Sql.Postgres), user) == chats == UserChats(t.(dialect := Sql.MySQL), user);
    LastRowsAgree(s, chats);
  }

  /** Whatever either dialect does with chats of equal activity: the previews are the same, and so
      is, place by place, the activity. */
  lemma ChatListsAgree(t: Sql.Tables, s: Store, user: Id, a: seq<Id>, b: seq<Id>)
    requires ChatList(t.(dialect := Sql.Postgres), s, user, a) && ChatList(t.(dialect := Sql.MySQL), s, user, b)
    ensures var p := GetUserChats(t.(dialect := Sql.Postgres), s, user);
            var m := GetUserChats(t.(dialect := Sql.MySQL), s, user);
            && p == m && |a| == |b| && (forall c :: c in a <==> c in b && c in p)
            && (forall i :: 0 <= i < |a| ==> a[i] in p && b[i] in m && Activity(p[a[i]]) == Activity(m[b[i]]))
  {
    DialectsAgree(t, s, user);
    SameKeys(Activities(t.(dialect := Sql.Postgres), s, user), a, b);
  }

  /** The time of a chat's last live message, or of its creation. */
  function LastActive(t: Sql.Tables, s: Store, chat: Id): int
    requires chat in t.chats
  {
    var head := GetChatMessages(s, chat, None, 1);
    if head == [] then t.chats[chat].createdAt else head[0].createdAt
  }

  /** The list has exactly the live chats that the user is in, once each, the last active first. */
  lemma ChatListMeans(t: Sql.Tables, s: Store, user: Id, ids: seq<Id>)
    requires ChatList(t, s, user, ids)
    ensures forall c :: c in ids <==> c in t.chats && c !in t.deleted && (c, user) in t.members
    ensures forall i, j :: 0 <= i < j < |ids| ==> ids[i] != ids[j]
    ensures forall i :: 0 <= i < |ids| ==> ids[i] in t.chats
    ensures forall i, j :: 0 <= i < j < |ids| ==> LastActive(t, s, ids[i]) >= LastActive(t, s, ids[j])
  {
    forall i | 0 <= i < |ids|
      ensures ids[i] in t.chats && ids[i] in Activities(t, s, user)
      ensures Activities(t, s, user)[ids[i]] == LastActive(t, s, ids[i])
    {
      assert ids[i] in ids;
      PreviewsAgree(t, s, user, ids[i]);
    }
  }
}
