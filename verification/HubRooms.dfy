/** The hub's own steps as code: rooms filled and emptied chat by chat, and one event fanned
    out over a room's channels. The interleavings of these steps are the subject of module Hub. */
module HubRooms {
  import opened Uuids
  import opened SendQueue

  class Client {
    const user: Uuid
    const send: Channel<string>

    constructor (user: Uuid)
      ensures this.user == user && fresh(send) && send.Valid() && send.buffer == []
    {
      this.user := user;
      send := new Channel();
    }
  }

  class Hub {
    var chatClients: map<Uuid, set<Client>>

    constructor ()
      ensures chatClients == map[]
    {
      chatClients := map[];
    }

    function Room(chat: Uuid): set<Client>
      reads this
    {
      if chat in chatClients then chatClients[chat] else {}
    }

    /** Every listed room is there afterwards, with the client in it. */
    method Subscribe(client: Client, chats: seq<Uuid>)
      modifies this
      ensures forall chat :: Room(chat) == old(Room(chat)) + (if chat in chats then {client} else {})
      ensures forall chat :: chat in chatClients <==> chat in old(chatClients) || chat in chats
    {
      for i := 0 to |chats|
        invariant forall chat :: Room(chat) == old(Room(chat)) + (if chat in chats[..i] then {client} else {})
        invariant forall chat :: chat in chatClients <==> chat in old(chatClients) || chat in chats[..i]
      {
        assert chats[..i + 1] == chats[..i] + [chats[i]];
        if chats[i] !in chatClients {
          chatClients := chatClients[chats[i] := {}];
        }
        chatClients := chatClients[chats[i] := chatClients[chats[i]] + {client}];
      }
      assert chats[..|chats|] == chats;
    }

    /** The client leaves the listed rooms; no room is made or dropped. */
    method Unsubscribe(client: Client, chats: seq<Uuid>)
      modifies this
      ensures forall chat :: Room(chat) == old(Room(chat)) - (if chat in chats then {client} else {})
      ensures chatClients.Keys == old(chatClients).Keys
    {
      for i := 0 to |chats|
        invariant forall chat :: Room(chat) == old(Room(chat)) - (if chat in chats[..i] then {client} else {})
        invariant chatClients.Keys == old(chatClients).Keys
      {
        assert chats[..i + 1] == chats[..i] + [chats[i]];
        if chats[i] in chatClients {
          chatClients := chatClients[chats[i] := chatClients[chats[i]] - {client}];
        }
      }
      assert chats[..|chats|] == chats;
    }

    /** Every client of the room but the excluded user's is offered the event; a full channel
        stays as it is and holds nobody up. */
    method BroadcastToChat(chat: Uuid, data: string, exclude: Uuid)
      requires forall c :: c in Room(chat) ==> c.send.Valid()
      requires forall c, d :: c in Room(chat) && d in Room(chat) && c != d ==> c.send != d.send
      modifies set c | c in Room(chat) :: c.send
      ensures forall c :: c in Room(chat) ==> c.send.Valid()
      ensures forall c :: c in Room(chat) ==>
                c.send.buffer == if c.user == exclude then old(c.send.buffer) else Offer(old(c.send.buffer), data)
    {
      if chat !in chatClients {
        return;
      }
      ghost var room := Room(chat);
      var todo := chatClients[chat];
      while todo != {}
        invariant todo <= room == Room(chat)
        invariant forall c :: c in room ==> c.send.Valid()
        invariant forall c :: c in todo ==> c.send.buffer == old(c.send.buffer)
        invariant forall c :: c in room && c !in todo ==>
                    c.send.buffer == if c.user == exclude then old(c.send.buffer) else Offer(old(c.send.buffer), data)
      {
        var client :| client in todo;
        todo := todo - {client};
        if client.user == exclude {
          continue;
        }
        var _ := client.send.TrySend(data);
      }
    }
  }
}
