/** Keys and values of the one cache that the chat and user repositories share. */
module CacheKeys {
  import opened Domain
  import opened Uuids

  datatype Key =
    | UserKey(id: Id)
    | ChatKey(id: Id)
    | MemberKey(chat: Id, user: Id)
    | IsMemberKey(chat: Id, user: Id)

  /** The string a key is. */
  function Render(k: Key): string
  {
    match k
    case UserKey(id) => "user:" + Text(id)
    case ChatKey(id) => "chat:" + Text(id)
    case MemberKey(chat, user) => "chatmember:" + Text(chat) + ":" + Text(user)
    case IsMemberKey(chat, user) => "ismember:" + Text(chat) + ":" + Text(user)
  }

  lemma PrefixedInjective(prefix: string, a: string, b: string)
    requires prefix + a == prefix + b
    ensures a == b
  {
    assert a == (prefix + a)[|prefix|..];
    assert b == (prefix + b)[|prefix|..];
  }

  lemma PairInjective(prefix: string, c: Id, u: Id, d: Id, v: Id)
    requires prefix + Text(c) + ":" + Text(u) == prefix + Text(d) + ":" + Text(v)
    ensures c == d && u == v
  {
    var s, n := prefix + Text(c) + ":" + Text(u), |prefix|;
    assert Text(c) == s[n..n + 36] == Text(d);
    assert Text(u) == s[n + 37..] == Text(v);
    TextInjective(c, d);
    TextInjective(u, v);
  }

  /** No two keys, of one kind or of different kinds, are the same string. */
  lemma KeysInjective(k: Key, l: Key)
    ensures Render(k) == Render(l) <==> k == l
  {
    if Render(k) == Render(l) {
      var s := Render(k);
      assert s[0] == if k.UserKey? then 'u' else if k.IsMemberKey? then 'i' else 'c';
      assert l.UserKey? || l.IsMemberKey? ==> s[0] != 'c';
      match k
      case UserKey(id) =>
        PrefixedInjective("user:", Text(id), Text(l.id));
        TextInjective(id, l.id);
      case ChatKey(id) =>
        assert |s| == 41;
        PrefixedInjective("chat:", Text(id), Text(l.id));
        TextInjective(id, l.id);
      case MemberKey(c, u) =>
        assert |s| == 84;
        PairInjective("chatmember:", c, u, l.chat, l.user);
      case IsMemberKey(c, u) =>
        PairInjective("ismember:", c, u, l.chat, l.user);
    }
  }

  /** A user as JSON keeps it: without the password hash. */
  datatype PublicUser = PublicUser(id: Id, username: string, email: string, avatarUrl: string,
                                   bio: string, status: string, lastSeen: int, createdAt: int, updatedAt: int)

  datatype CacheValue =
    | UserJson(user: PublicUser)
    | ChatJson(chat: Chat)
    | MemberJson(member: ChatMember)
    | Flag(raw: string)
}
