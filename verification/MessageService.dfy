/** The message use cases as they are: membership through the caching chat repository, messages
    changed step by step. Each answers, and leaves the store, as over the tables alone. */
module MessageService {
  import opened Wrappers
  import opened Domain
  import opened Uuids
  import opened CachedChats
  import opened MessageTables
  import History
  import Reactions
  import Spec = MessageUseCases

  class MessageDb {
    var s: Store

    constructor (s0: Store)
      ensures s == s0
    {
      s := s0;
    }
  }

  lemma PageMessages(s: Store, chat: Id, cursor: Option<Key>, limit: nat)
    requires Spec.IdsSound(s)
    ensures var msgs, keys := GetChatMessages(s, chat, cursor, limit), PageKeys(s, chat, cursor, limit);
            |msgs| == |keys| && forall i :: 0 <= i < |msgs| ==> KeyOf(msgs[i]) == keys[i]
  {
    var keys := PageKeys(s, chat, cursor, limit);
    assert forall i :: 0 <= i < |keys| ==> keys[i] in Older(s, chat, cursor);
  }

  class Service {
    const messages: MessageDb
    const chats: ChatRepo

    constructor (messages: MessageDb, chats: ChatRepo)
      ensures this.messages == messages && this.chats == chats
    {
      this.messages, this.chats := messages, chats;
    }

    ghost predicate Valid()
      reads this, messages, chats, chats.db, chats.cache
    {
      chats.Valid() && Spec.IdsSound(messages.s)
    }

    method AssertMember(chat: Id, user: Id) returns (r: Result<()>)
      requires Valid()
      modifies chats.cache
      ensures Valid() && OnlyChatsChange(old(chats.cache.entries), chats.cache.entries)
      ensures r == Spec.Member(chats.db.t, chat, user)
    {
      var ok := chats.IsMember(chat, user);
      if !ok {
        return Err(ErrNotChatMember);
      }
      return Ok(());
    }

    method Send(sender: Id, chat: Id, content: string, kind: string, replyTo: Option<Id>, newId: Id, now: int)
      returns (r: Result<Spec.Reply>)
      requires Valid()
      modifies messages, chats.cache
      ensures Valid() && OnlyChatsChange(old(chats.cache.entries), chats.cache.entries)
      ensures (r, messages.s) ==
                Spec.Send(chats.db.t, old(messages.s), sender, chat, content, kind, replyTo, newId, now)
    {
      if chat == NIL || !Spec.ContentValid(content) || kind !in ["text", "image", "file"] {
        return Err(ErrValidation);
      }
      var allowed := AssertMember(chat, sender);
      if allowed.Err? {
        return Err(allowed.error);
      }
      if replyTo.Some? {
        var reply := GetByID(messages.s, replyTo.value);
        if reply.Err? {
          return Err(reply.error);
        }
        if reply.value.chat != chat {
          return Err(ErrMessageNotFound);
        }
      }
      var msg := Message(newId, chat, sender, content, kind, replyTo, None, None, now, now);
      match Create(messages.s, msg) {
        case Err(e) => return Err(e);
        case Ok(s') =>
          messages.s := s';
          return Ok(Spec.MessageReply(msg));
      }
    }

    method Edit(id: Id, caller: Id, content: string, now: int) returns (r: Result<Spec.Reply>)
      requires Valid()
      modifies messages, chats.cache
      ensures Valid() && OnlyChatsChange(old(chats.cache.entries), chats.cache.entries)
      ensures (r, messages.s) == Spec.Edit(chats.db.t, old(messages.s), id, caller, content, now)
    {
      if !Spec.ContentValid(content) {
        return Err(ErrValidation);
      }
      var found := GetByID(messages.s, id);
      if found.Err? {
        return Err(found.error);
      }
      var msg := found.value;
      if msg.deletedAt.Some? {
        return Err(ErrMessageDeleted);
      }
      if msg.sender != caller {
        return Err(ErrNotMessageAuthor);
      }
      var allowed := AssertMember(msg.chat, caller);
      if allowed.Err? {
        return Err(allowed.error);
      }
      msg := msg.(content := content);
      msg := msg.(editedAt := Some(now));
      msg := msg.(updatedAt := now);
      match Update(messages.s, msg) {
        case Err(e) => return Err(e);
        case Ok(s') =>
          messages.s := s';
          return Ok(Spec.MessageReply(msg));
      }
    }

    method Delete(id: Id, caller: Id, dbNow: int) returns (r: Result<Spec.Reply>)
      requires Valid()
      modifies messages, chats.cache
      ensures Valid() && OnlyChatsChange(old(chats.cache.entries), chats.cache.entries)
      ensures (r, messages.s) == Spec.DeleteMessage(chats.db.t, old(messages.s), id, caller, dbNow)
    {
      var found := GetByID(messages.s, id);
      if found.Err? {
        return Err(found.error);
      }
      var msg := found.value;
      if msg.deletedAt.Some? {
        return Err(ErrMessageDeleted);
      }
      if msg.sender != caller {
        return Err(ErrNotMessageAuthor);
      }
      var allowed := AssertMember(msg.chat, caller);
      if allowed.Err? {
        return Err(allowed.error);
      }
      match MessageTables.Delete(messages.s, id, dbNow) {
        case Err(e) => return Err(e);
        case Ok(s') =>
          messages.s := s';
          return Ok(Spec.Done);
      }
    }

    method MarkRead(chat: Id, caller: Id, dbNow: int) returns (r: Result<Spec.Reply>)
      requires Valid()
      modifies messages, chats.cache
      ensures Valid() && OnlyChatsChange(old(chats.cache.entries), chats.cache.entries)
      ensures (r, messages.s) == Spec.ReadChat(chats.db.t, old(messages.s), chat, caller, dbNow)
    {
      var allowed := AssertMember(chat, caller);
      if allowed.Err? {
        return Err(allowed.error);
      }
      messages.s := MessageTables.MarkRead(messages.s, chat, caller, dbNow);
      return Ok(Spec.Done);
    }

    /** Reads a page, collects its ids, fetches all their reactions at once, and attaches them. */
    method GetHistory(caller: Id, chat: Id, cursor: Option<Key>, limit: nat) returns (r: Result<Spec.Reply>)
      requires Valid() && limit >= 1
      modifies chats.cache
      ensures Valid() && OnlyChatsChange(old(chats.cache.entries), chats.cache.entries)
      ensures r == Spec.GetHistory(chats.db.t, messages.s, caller, chat, cursor, limit)
    {
      var allowed := AssertMember(chat, caller);
      if allowed.Err? {
        return Err(allowed.error);
      }
      var msgs := GetChatMessages(messages.s, chat, cursor, limit);
      var shown := Attach(msgs);
      PageMessages(messages.s, chat, cursor, limit);
      return Ok(Spec.PageReply(Spec.Page(shown, NextCursor(msgs, PageKeys(messages.s, chat, cursor, limit), limit))));
    }

    method Attach(msgs: seq<Message>) returns (shown: seq<Spec.Shown>)
      ensures shown == Spec.WithReactions(messages.s, chats.db.t.users, msgs)
    {
      shown := [];
      if |msgs| > 0 {
        var ids: seq<Id> := [];
        for i := 0 to |msgs|
          invariant |ids| == i && forall j :: 0 <= j < i ==> ids[j] == msgs[j].id
        {
          ids := ids + [msgs[i].id];
        }
        var byMessage := Reactions.GetReactionsBatch(messages.s, chats.db.t.users, ids);
        for i := 0 to |msgs|
          invariant |shown| == i
          invariant forall j :: 0 <= j < i ==>
                      shown[j] == Spec.Shown(msgs[j], GetReactions(messages.s, chats.db.t.users, msgs[j].id))
        {
          assert ids[i] in ids;
          shown := shown + [Spec.Shown(msgs[i], Reactions.Grouped(byMessage, msgs[i].id))];
        }
      }
    }

    /** From the last message of a full page, whose (created_at, id) is the page's last key. */
    function NextCursor(msgs: seq<Message>, ghost keys: seq<Key>, limit: nat): Option<Key>
      requires limit >= 1 && |keys| == |msgs|
      requires forall i :: 0 <= i < |msgs| ==> KeyOf(msgs[i]) == keys[i]
      ensures NextCursor(msgs, keys, limit) == History.NextCursor(keys, limit)
    {
      if |msgs| < limit then None else Some(KeyOf(msgs[|msgs| - 1]))
    }

    method AddReaction(id: Id, caller: Id, emoji: string, now: int) returns (r: Result<Spec.Reply>)
      requires Valid()
      modifies messages, chats.cache
      ensures Valid() && OnlyChatsChange(old(chats.cache.entries), chats.cache.entries)
      ensures (r, messages.s) == Spec.React(chats.db.t, old(messages.s), id, caller, emoji, now)
    {
      var allowed := MayReact(id, caller, emoji);
      if allowed.Err? {
        return Err(allowed.error);
      }
      messages.s := MessageTables.AddReaction(messages.s, id, caller, emoji, now);
      return Ok(Spec.Done);
    }

    method RemoveReaction(id: Id, caller: Id, emoji: string) returns (r: Result<Spec.Reply>)
      requires Valid()
      modifies messages, chats.cache
      ensures Valid() && OnlyChatsChange(old(chats.cache.entries), chats.cache.entries)
      ensures (r, messages.s) == Spec.Unreact(chats.db.t, old(messages.s), id, caller, emoji)
    {
      var allowed := MayReact(id, caller, emoji);
      if allowed.Err? {
        return Err(allowed.error);
      }
      messages.s := MessageTables.RemoveReaction(messages.s, id, caller, emoji);
      return Ok(Spec.Done);
    }

    method MayReact(id: Id, caller: Id, emoji: string) returns (r: Result<()>)
      requires Valid()
      modifies chats.cache
      ensures Valid() && OnlyChatsChange(old(chats.cache.entries), chats.cache.entries)
      ensures r == Spec.MayReact(chats.db.t, messages.s, id, caller, emoji)
    {
      if !Spec.EmojiValid(emoji) {
        return Err(ErrValidation);
      }
      var found := GetByID(messages.s, id);
      if found.Err? {
        return Err(found.error);
      }
      if found.value.deletedAt.Some? {
        return Err(ErrMessageDeleted);
      }
      r := AssertMember(found.value.chat, caller);
    }
  }
}
