/** The WebSocket hub as a protocol: clients joining and leaving rooms, any number of
    broadcasters ranging over a room at once, and one write pump per client. */
module Hub {
  import opened Uuids
  import opened SendQueue

  type ClientId = nat

  /** Who calls BroadcastToChat: a client's read pump, or the dispatcher. */
  datatype Source =
    | ReadPump(client: ClientId)
    | Dispatcher

  datatype Event = Event(kind: string, payload: string, sender: Uuid, chat: Uuid)

  /** One call of BroadcastToChat: the n-th of its source. Both callers exclude the sender. */
  datatype Broadcast = Broadcast(source: Source, seqNo: nat, event: Event)

  datatype Pump = Waiting | Woken | Draining(left: nat) | Stopped

  datatype Client = Client(
    user: Uuid,
    chats: seq<Uuid>,
    queue: seq<Broadcast>,      // the send channel
    taken: seq<Broadcast>,      // received from it by the write pump
    dropped: seq<Broadcast>,
    attempts: seq<Broadcast>,   // every send tried, in order
    pump: Pump)

  /** A Range over a room promises to visit the clients that stay in it throughout, and may
      visit any that were in it at some moment; none twice. */
  datatype Ranging = Ranging(b: Broadcast, must: set<ClientId>, may: set<ClientId>, visited: set<ClientId>)

  datatype System = System(
    clients: map<ClientId, Client>,
    rooms: map<Uuid, set<ClientId>>,
    sent: map<Source, seq<Broadcast>>,
    ranges: map<Source, Ranging>)

  datatype Step =
    | Connect(id: ClientId, user: Uuid, chats: seq<Uuid>)
    | Join(id: ClientId, chat: Uuid)
    | Leave(id: ClientId, chat: Uuid)
    | Start(source: Source, event: Event)
    | Visit(source: Source, id: ClientId)
    | Finish(source: Source)
    | Wake(id: ClientId)
    | ReadLength(id: ClientId)
    | DrainOne(id: ClientId)
    | DrainDone(id: ClientId)
    | WriteFails(id: ClientId)

  function Init(): System { System(map[], map[], map[], map[]) }

  function Sent(s: System, source: Source): seq<Broadcast>
  {
    if source in s.sent then s.sent[source] else []
  }

  function Room(s: System, chat: Uuid): set<ClientId>
  {
    if chat in s.rooms then s.rooms[chat] else {}
  }

  predicate Enabled(s: System, step: Step)
  {
    match step
    case Connect(id, _, _) => id !in s.clients
    case Join(id, chat) => id in s.clients && chat in s.clients[id].chats
    case Leave(id, chat) => id in s.clients && chat in s.clients[id].chats
    case Start(source, event) =>
      source !in s.ranges &&
      (source.ReadPump? ==>
         source.client in s.clients &&
         event.sender == s.clients[source.client].user &&
         event.chat in s.clients[source.client].chats)
    case Visit(source, id) =>
      source in s.ranges && id in s.ranges[source].may - s.ranges[source].visited && id in s.clients
    case Finish(source) => source in s.ranges && s.ranges[source].must <= s.ranges[source].visited
    case Wake(id) => id in s.clients && s.clients[id].pump.Waiting? && s.clients[id].queue != []
    case ReadLength(id) => id in s.clients && s.clients[id].pump.Woken?
    case DrainOne(id) =>
      id in s.clients && s.clients[id].pump.Draining? && s.clients[id].pump.left > 0 && s.clients[id].queue != []
    case DrainDone(id) => id in s.clients && s.clients[id].pump == Draining(0)
    case WriteFails(id) => id in s.clients && !s.clients[id].pump.Stopped?
  }

  /** The select with a default branch inside Range. */
  function Send(c: Client, b: Broadcast): Client
  {
    if c.user == b.event.sender then c
    else if |c.queue| < CAPACITY then c.(queue := Offer(c.queue, b), attempts := c.attempts + [b])
    else c.(dropped := c.dropped + [b], attempts := c.attempts + [b])
  }

  function Receive(c: Client, pump: Pump): Client
    requires c.queue != []
  {
    c.(queue := c.queue[1..], taken := c.taken + [c.queue[0]], pump := pump)
  }

  function Apply(s: System, step: Step): System
    requires Enabled(s, step)
  {
    match step
    case Connect(id, user, chats) =>
      s.(clients := s.clients[id := Client(user, chats, [], [], [], [], Waiting)])
    case Join(id, chat) =>
      s.(rooms := s.rooms[chat := Room(s, chat) + {id}],
         ranges := map src | src in s.ranges ::
           if s.ranges[src].b.event.chat == chat
           then s.ranges[src].(may := s.ranges[src].may + {id}) else s.ranges[src])
    case Leave(id, chat) =>
      s.(rooms := if chat in s.rooms then s.rooms[chat := s.rooms[chat] - {id}] else s.rooms,
         ranges := map src | src in s.ranges ::
           if s.ranges[src].b.event.chat == chat
           then s.ranges[src].(must := s.ranges[src].must - {id}) else s.ranges[src])
    case Start(source, event) =>
      var b := Broadcast(source, |Sent(s, source)|, event);
      var s' := s.(sent := s.sent[source := Sent(s, source) + [b]]);
      if event.chat !in s.rooms then s' else
      var room := s.rooms[event.chat];
      s'.(ranges := s.ranges[source := Ranging(b, room, room, {})])
    case Visit(source, id) =>
      var r := s.ranges[source];
      s.(clients := s.clients[id := Send(s.clients[id], r.b)],
         ranges := s.ranges[source := r.(visited := r.visited + {id})])
    case Finish(source) => s.(ranges := s.ranges - {source})
    case Wake(id) => s.(clients := s.clients[id := Receive(s.clients[id], Woken)])
    case ReadLength(id) =>
      var c := s.clients[id];
      s.(clients := s.clients[id := c.(pump := Draining(|c.queue|))])
    case DrainOne(id) =>
      var c := s.clients[id];
      s.(clients := s.clients[id := Receive(c, Draining(c.pump.left - 1))])
    case DrainDone(id) => s.(clients := s.clients[id := s.clients[id].(pump := Waiting)])
    case WriteFails(id) => s.(clients := s.clients[id := s.clients[id].(pump := Stopped)])
  }

  /** Interleavings: sequences of steps, each enabled where it is taken. */
  predicate Legal(steps: seq<Step>)
    decreases |steps|, 0
  {
    steps == [] ||
    (Legal(steps[..|steps| - 1]) && Enabled(Reached(steps[..|steps| - 1]), steps[|steps| - 1]))
  }

  function Reached(steps: seq<Step>): System
    requires Legal(steps)
    decreases |steps|, 1
  {
    if steps == [] then Init()
    else Apply(Reached(steps[..|steps| - 1]), steps[|steps| - 1])
  }

  // ---- Invariant ----

  /** Broadcasts of one source, wherever they stand in the list, come in sending order. */
  ghost predicate InOrder(q: seq<Broadcast>)
  {
    forall i, j :: 0 <= i < j < |q| && q[i].source == q[j].source ==> q[i].seqNo < q[j].seqNo
  }

  function Received(c: Client): seq<Broadcast> { c.taken + c.queue }

  type Log = map<Source, seq<Broadcast>>

  ghost predicate WasSent(sent: Log, b: Broadcast)
  {
    b.source in sent && b.seqNo < |sent[b.source]| && sent[b.source][b.seqNo] == b
  }

  /** What may be tried on a client: something really sent, to a chat it subscribed to, not its own. */
  ghost predicate Admissible(sent: Log, c: Client, b: Broadcast)
  {
    WasSent(sent, b) && b.event.sender != c.user && b.event.chat in c.chats
  }

  /** Every attempt to a client is accounted for. */
  ghost predicate Accounted(sent: Log, c: Client)
  {
    && |c.queue| <= CAPACITY
    && (c.pump.Draining? ==> c.pump.left <= |c.queue|)
    && multiset(c.attempts) == multiset(Received(c)) + multiset(c.dropped)
    && InOrder(Received(c))
    && forall b :: b in c.attempts ==> Admissible(sent, c, b)
  }

  /** A client has been tried with the broadcast of a Range just when it was visited. */
  ghost predicate Tried(r: Ranging, id: ClientId, c: Client)
  {
    && (id in r.may ==> r.b.event.chat in c.chats)
    && if id in r.visited then c.user == r.b.event.sender || r.b in c.attempts else r.b !in c.attempts
  }

  /** A Range distributes the last broadcast of its source. */
  ghost predicate Current(sent: Log, source: Source, r: Ranging)
  {
    WasSent(sent, r.b) && r.b.source == source && r.b.seqNo == |sent[source]| - 1
  }

  ghost predicate RangeSound(clients: map<ClientId, Client>, r: Ranging)
  {
    && r.must <= r.may <= clients.Keys && r.visited <= r.may
    && forall id :: id in clients ==> Tried(r, id, clients[id])
  }

  ghost predicate RoomsSound(clients: map<ClientId, Client>, rooms: map<Uuid, set<ClientId>>)
  {
    forall chat :: chat in rooms ==> RoomSound(clients, chat, rooms[chat])
  }

  ghost predicate RoomSound(clients: map<ClientId, Client>, chat: Uuid, room: set<ClientId>)
  {
    forall id :: id in room ==> id in clients && chat in clients[id].chats
  }

  ghost predicate Inv(s: System)
  {
    && RoomsSound(s.clients, s.rooms)
    && (forall id :: id in s.clients ==> Accounted(s.sent, s.clients[id]))
    && (forall source :: source in s.ranges ==> RangeSound(s.clients, s.ranges[source]))
    && (forall source :: source in s.ranges ==> Current(s.sent, source, s.ranges[source]))
  }

  /** Clients changed, but not their user, chats and attempts. */
  ghost predicate SameTrace(before: map<ClientId, Client>, after: map<ClientId, Client>)
  {
    before.Keys <= after.Keys &&
    forall id :: id in before ==>
      after[id].user == before[id].user && after[id].chats == before[id].chats &&
      after[id].attempts == before[id].attempts
  }

  lemma RoomsFollow(before: map<ClientId, Client>, after: map<ClientId, Client>, rooms: map<Uuid, set<ClientId>>)
    requires RoomsSound(before, rooms)
    requires before.Keys <= after.Keys
    requires forall id :: id in before ==> after[id].chats == before[id].chats
    ensures RoomsSound(after, rooms)
  {
    forall chat | chat in rooms
      ensures RoomSound(after, chat, rooms[chat])
    {
      assert RoomSound(before, chat, rooms[chat]);
    }
  }

  lemma RangeFollows(before: map<ClientId, Client>, after: map<ClientId, Client>, r: Ranging)
    requires RangeSound(before, r) && SameTrace(before, after)
    requires forall id :: id in after && id !in before ==> after[id].attempts == []
    ensures RangeSound(after, r)
  {
    forall id | id in after
      ensures Tried(r, id, after[id])
    {
      assert id in before ==> Tried(r, id, before[id]);
    }
  }

  lemma RangesFollow(before: map<ClientId, Client>, after: map<ClientId, Client>, ranges: map<Source, Ranging>)
    requires forall source :: source in ranges ==> RangeSound(before, ranges[source])
    requires SameTrace(before, after)
    requires forall id :: id in after && id !in before ==> after[id].attempts == []
    ensures forall source :: source in ranges ==> RangeSound(after, ranges[source])
  {
    forall source | source in ranges
      ensures RangeSound(after, ranges[source])
    {
      RangeFollows(before, after, ranges[source]);
    }
  }

  lemma InvConnect(s: System, id: ClientId, user: Uuid, chats: seq<Uuid>)
    requires Inv(s) && Enabled(s, Connect(id, user, chats))
    ensures Inv(Apply(s, Connect(id, user, chats)))
  {
    var s' := Apply(s, Connect(id, user, chats));
    RoomsFollow(s.clients, s'.clients, s.rooms);
    assert Accounted(s.sent, s'.clients[id]);
    RangesFollow(s.clients, s'.clients, s.ranges);
  }

  lemma InvJoin(s: System, id: ClientId, chat: Uuid)
    requires Inv(s) && Enabled(s, Join(id, chat))
    ensures Inv(Apply(s, Join(id, chat)))
  {
    var s' := Apply(s, Join(id, chat));
    assert chat in s.rooms ==> RoomSound(s.clients, chat, s.rooms[chat]);
    assert RoomSound(s.clients, chat, s'.rooms[chat]);
    forall source | source in s'.ranges
      ensures RangeSound(s.clients, s'.ranges[source])
      ensures Current(s.sent, source, s'.ranges[source])
    {
      var r, r' := s.ranges[source], s'.ranges[source];
      assert RangeSound(s.clients, r) && Current(s.sent, source, r);
      forall x | x in s.clients
        ensures Tried(r', x, s.clients[x])
      {
        assert Tried(r, x, s.clients[x]);
      }
    }
  }

  lemma InvLeave(s: System, id: ClientId, chat: Uuid)
    requires Inv(s) && Enabled(s, Leave(id, chat))
    ensures Inv(Apply(s, Leave(id, chat)))
  {
    var s' := Apply(s, Leave(id, chat));
    assert chat in s.rooms ==> RoomSound(s.clients, chat, s.rooms[chat]);
    forall source | source in s'.ranges
      ensures RangeSound(s.clients, s'.ranges[source])
      ensures Current(s.sent, source, s'.ranges[source])
    {
      var r, r' := s.ranges[source], s'.ranges[source];
      assert RangeSound(s.clients, r) && Current(s.sent, source, r);
      forall x | x in s.clients
        ensures Tried(r', x, s.clients[x])
      {
        assert Tried(r, x, s.clients[x]);
      }
    }
  }

  lemma AccountedLater(sent: Log, later: Log, c: Client)
    requires Accounted(sent, c)
    requires forall b :: WasSent(sent, b) ==> WasSent(later, b)
    ensures Accounted(later, c)
  {
    forall b | b in c.attempts
      ensures Admissible(later, c, b)
    {
      assert Admissible(sent, c, b);
    }
  }

  lemma FreshUntried(sent: Log, c: Client, b: Broadcast)
    requires Accounted(sent, c) && !WasSent(sent, b)
    ensures b !in c.attempts
  {
    assert b in c.attempts ==> Admissible(sent, c, b);
  }

  lemma InvStart(s: System, source: Source, event: Event)
    requires Inv(s) && Enabled(s, Start(source, event))
    ensures Inv(Apply(s, Start(source, event)))
  {
    var s' := Apply(s, Start(source, event));
    var b := Broadcast(source, |Sent(s, source)|, event);
    assert forall x :: WasSent(s.sent, x) ==> WasSent(s'.sent, x);
    forall id | id in s.clients
      ensures Accounted(s'.sent, s.clients[id])
      ensures b !in s.clients[id].attempts
    {
      AccountedLater(s.sent, s'.sent, s.clients[id]);
      FreshUntried(s.sent, s.clients[id], b);
    }
    forall other | other in s.ranges
      ensures Current(s'.sent, other, s.ranges[other])
    {
      assert Current(s.sent, other, s.ranges[other]);
    }
    if event.chat in s.rooms {
      NewRangeSound(s.clients, s.rooms[event.chat], b);
      assert Current(s'.sent, source, s'.ranges[source]);
    }
  }

  lemma NewRangeSound(clients: map<ClientId, Client>, room: set<ClientId>, b: Broadcast)
    requires RoomSound(clients, b.event.chat, room)
    requires forall id :: id in clients ==> b !in clients[id].attempts
    ensures RangeSound(clients, Ranging(b, room, room, {}))
  {
    var r := Ranging(b, room, room, {});
    assert forall id :: id in clients ==> Tried(r, id, clients[id]);
  }

  lemma ReceivedTried(c: Client, e: Broadcast)
    requires multiset(c.attempts) == multiset(Received(c)) + multiset(c.dropped)
    requires e in Received(c)
    ensures e in c.attempts
  {
    assert e in multiset(Received(c));
    assert e in multiset(c.attempts);
  }

  lemma SendInOrder(sent: Log, c: Client, b: Broadcast)
    requires Accounted(sent, c) && WasSent(sent, b) && b.seqNo == |sent[b.source]| - 1
    requires b !in c.attempts
    ensures InOrder(Received(c) + [b])
  {
    forall i | 0 <= i < |Received(c)| && Received(c)[i].source == b.source
      ensures Received(c)[i].seqNo < b.seqNo
    {
      var e := Received(c)[i];
      ReceivedTried(c, e);
      assert Admissible(sent, c, e);
      assert e.seqNo == b.seqNo ==> e == b;
    }
  }

  lemma SendAccounted(sent: Log, c: Client, b: Broadcast)
    requires Accounted(sent, c) && WasSent(sent, b) && b.seqNo == |sent[b.source]| - 1
    requires b !in c.attempts && b.event.chat in c.chats
    ensures Accounted(sent, Send(c, b))
  {
    var c' := Send(c, b);
    SendInOrder(sent, c, b);
    if c.user != b.event.sender {
      assert Admissible(sent, c, b);
      if |c.queue| < CAPACITY {
        assert Received(c') == Received(c) + [b];
      }
      forall e | e in c'.attempts
        ensures Admissible(sent, c', e)
      {
        assert e == b || Admissible(sent, c, e);
      }
    }
  }

  /** Sending b to one client keeps every other Range as it was, and marks b's own. */
  lemma VisitTried(q: Ranging, x: ClientId, id: ClientId, c: Client, b: Broadcast)
    requires Tried(q, x, c)
    ensures x != id || q.b != b ==> Tried(q, x, if x == id then Send(c, b) else c)
    ensures q.b == b ==> Tried(q.(visited := q.visited + {id}), x, if x == id then Send(c, b) else c)
  {
  }

  lemma VisitRange(s: System, source: Source, id: ClientId, other: Source)
    requires Inv(s) && Enabled(s, Visit(source, id)) && other in s.ranges
    ensures var s' := Apply(s, Visit(source, id));
            RangeSound(s'.clients, s'.ranges[other]) && Current(s.sent, other, s'.ranges[other])
  {
    var s' := Apply(s, Visit(source, id));
    var r, q := s.ranges[source], s.ranges[other];
    assert RangeSound(s.clients, q) && Current(s.sent, other, q) && Current(s.sent, source, r);
    forall x | x in s'.clients
      ensures Tried(s'.ranges[other], x, s'.clients[x])
    {
      assert Tried(q, x, s.clients[x]);
      VisitTried(q, x, id, s.clients[x], r.b);
    }
  }

  lemma InvVisit(s: System, source: Source, id: ClientId)
    requires Inv(s) && Enabled(s, Visit(source, id))
    ensures Inv(Apply(s, Visit(source, id)))
  {
    var s' := Apply(s, Visit(source, id));
    var r := s.ranges[source];
    assert Tried(r, id, s.clients[id]) by {
      assert RangeSound(s.clients, r);
    }
    SendAccounted(s.sent, s.clients[id], r.b);
    RoomsFollow(s.clients, s'.clients, s.rooms);
    forall other | other in s'.ranges
      ensures RangeSound(s'.clients, s'.ranges[other]) && Current(s.sent, other, s'.ranges[other])
    {
      VisitRange(s, source, id, other);
    }
  }

  /** Only the queue, what was taken from it, and the pump differ. */
  ghost predicate PumpChange(c: Client, c': Client)
  {
    && Received(c') == Received(c) && |c'.queue| <= |c.queue|
    && (c'.pump.Draining? ==> c'.pump.left <= |c'.queue|)
    && c'.user == c.user && c'.chats == c.chats && c'.dropped == c.dropped && c'.attempts == c.attempts
  }

  lemma SameAttemptsAccounted(sent: Log, c: Client, c': Client)
    requires Accounted(sent, c) && PumpChange(c, c')
    ensures Accounted(sent, c')
  {
    forall b | b in c'.attempts
      ensures Admissible(sent, c', b)
    {
      assert Admissible(sent, c, b);
    }
  }

  lemma PumpTrace(clients: map<ClientId, Client>, id: ClientId, c': Client)
    requires id in clients && PumpChange(clients[id], c')
    ensures SameTrace(clients, clients[id := c'])
  {
  }

  lemma PumpAccounted(sent: Log, clients: map<ClientId, Client>, id: ClientId, c': Client)
    requires forall x :: x in clients ==> Accounted(sent, clients[x])
    requires id in clients && PumpChange(clients[id], c')
    ensures var after := clients[id := c']; forall x :: x in after ==> Accounted(sent, after[x])
  {
    SameAttemptsAccounted(sent, clients[id], c');
  }

  /** A step of a write pump changes its client's queue, what was taken from it, and the pump. */
  lemma InvPump(s: System, id: ClientId, c': Client)
    requires Inv(s) && id in s.clients && PumpChange(s.clients[id], c')
    ensures Inv(s.(clients := s.clients[id := c']))
  {
    PumpTrace(s.clients, id, c');
    PumpAccounted(s.sent, s.clients, id, c');
    InvSameTrace(s, s.clients[id := c']);
  }

  lemma InvSameTrace(s: System, after: map<ClientId, Client>)
    requires Inv(s) && SameTrace(s.clients, after) && s.clients.Keys == after.Keys
    requires forall x :: x in after ==> Accounted(s.sent, after[x])
    ensures Inv(s.(clients := after))
  {
    RoomsFollow(s.clients, after, s.rooms);
    RangesFollow(s.clients, after, s.ranges);
  }

  lemma ReceiveKeeps(c: Client, pump: Pump)
    requires c.queue != []
    ensures Received(Receive(c, pump)) == Received(c)
  {
    assert c.queue == [c.queue[0]] + c.queue[1..];
  }

  lemma InvReceive(s: System, id: ClientId, pump: Pump)
    requires Inv(s) && id in s.clients && s.clients[id].queue != []
    requires pump.Draining? ==> pump.left < |s.clients[id].queue|
    ensures Inv(s.(clients := s.clients[id := Receive(s.clients[id], pump)]))
  {
    ReceiveKeeps(s.clients[id], pump);
    InvPump(s, id, Receive(s.clients[id], pump));
  }

  lemma InvPumpOnly(s: System, id: ClientId, pump: Pump)
    requires Inv(s) && id in s.clients
    requires pump.Draining? ==> pump.left <= |s.clients[id].queue|
    ensures Inv(s.(clients := s.clients[id := s.clients[id].(pump := pump)]))
  {
    InvPump(s, id, s.clients[id].(pump := pump));
  }

  lemma DrainInBounds(s: System, id: ClientId)
    requires Inv(s) && id in s.clients && s.clients[id].pump.Draining?
    ensures s.clients[id].pump.left <= |s.clients[id].queue|
  {
    assert Accounted(s.sent, s.clients[id]);
  }

  lemma InvFinish(s: System, source: Source)
    requires Inv(s) && Enabled(s, Finish(source))
    ensures Inv(Apply(s, Finish(source)))
  {
  }

  predicate ByPump(step: Step)
  {
    step.Wake? || step.ReadLength? || step.DrainOne? || step.DrainDone? || step.WriteFails?
  }

  lemma InvPumpStep(s: System, step: Step)
    requires Inv(s) && Enabled(s, step) && ByPump(step)
    ensures Inv(Apply(s, step))
  {
    match step
    case Wake(id) => InvReceive(s, id, Woken);
    case ReadLength(id) => InvPumpOnly(s, id, Draining(|s.clients[id].queue|));
    case DrainOne(id) =>
      DrainInBounds(s, id);
      InvReceive(s, id, Draining(s.clients[id].pump.left - 1));
    case DrainDone(id) => InvPumpOnly(s, id, Waiting);
    case WriteFails(id) => InvPumpOnly(s, id, Stopped);
  }

  lemma InvStep(s: System, step: Step)
    requires Inv(s) && Enabled(s, step)
    ensures Inv(Apply(s, step))
  {
    match step
    case Connect(id, user, chats) => InvConnect(s, id, user, chats);
    case Join(id, chat) => InvJoin(s, id, chat);
    case Leave(id, chat) => InvLeave(s, id, chat);
    case Start(source, event) => InvStart(s, source, event);
    case Visit(source, id) => InvVisit(s, source, id);
    case Finish(source) => InvFinish(s, source);
    case _ => InvPumpStep(s, step);
  }

  lemma {:induction false} InvReached(steps: seq<Step>)
    requires Legal(steps)
    ensures Inv(Reached(steps))
    decreases |steps|
  {
    if steps != [] {
      var before := steps[..|steps| - 1];
      InvReached(before);
      InvStep(Reached(before), steps[|steps| - 1]);
    }
  }

  // ---- Delivery ----

  function From(q: seq<Broadcast>, source: Source): seq<Broadcast>
  {
    if q == [] then [] else
    (if q[0].source == source then [q[0]] else []) + From(q[1..], source)
  }

  /** `at` places the elements of `sub` inside `whole`, left to right, no place twice. */
  ghost predicate SubsequenceAt<T>(sub: seq<T>, whole: seq<T>, at: seq<nat>)
  {
    && |at| == |sub|
    && (forall i :: 0 <= i < |at| ==> at[i] < |whole| && whole[at[i]] == sub[i])
    && (forall i, j :: 0 <= i < j < |at| ==> at[i] < at[j])
  }

  function SeqNos(q: seq<Broadcast>): (r: seq<nat>)
    ensures |r| == |q| && forall i :: 0 <= i < |q| ==> r[i] == q[i].seqNo
  {
    seq(|q|, i requires 0 <= i < |q| => q[i].seqNo)
  }

  lemma {:induction false} FromElements(q: seq<Broadcast>, source: Source)
    ensures forall b :: b in From(q, source) <==> b in q && b.source == source
    decreases |q|
  {
    if q != [] {
      FromElements(q[1..], source);
      assert q == [q[0]] + q[1..];
    }
  }

  lemma HeadBeforeRest(q: seq<Broadcast>, b: Broadcast)
    requires InOrder(q) && q != [] && b in q[1..] && b.source == q[0].source
    ensures q[0].seqNo < b.seqNo
  {
    var k :| 0 <= k < |q| - 1 && q[1..][k] == b;
    assert q[k + 1] == b;
  }

  lemma {:induction false} FromInOrder(q: seq<Broadcast>, source: Source)
    requires InOrder(q)
    ensures InOrder(From(q, source))
    decreases |q|
  {
    if q != [] {
      var rest := From(q[1..], source);
      FromInOrder(q[1..], source);
      if q[0].source == source {
        FromElements(q[1..], source);
        forall i | 0 <= i < |rest|
          ensures q[0].seqNo < rest[i].seqNo
        {
          assert rest[i] in rest;
          HeadBeforeRest(q, rest[i]);
        }
      }
    }
  }

  /** Over every interleaving: what a client received (or has queued) from one source is a
      subsequence, in order and without repetition, of what that source sent; every piece of it
      went to a chat the client subscribed to, and none came from the client's own user. */
  lemma Delivery(steps: seq<Step>, id: ClientId, source: Source)
    requires Legal(steps) && id in Reached(steps).clients
    ensures var s := Reached(steps);
            var got := From(Received(s.clients[id]), source);
            && SubsequenceAt(got, Sent(s, source), SeqNos(got))
            && forall b :: b in got ==>
                 b.event.chat in s.clients[id].chats && b.event.sender != s.clients[id].user
  {
    InvReached(steps);
    var s := Reached(steps);
    var c := s.clients[id];
    assert Accounted(s.sent, c);
    FromElements(Received(c), source);
    FromInOrder(Received(c), source);
    var got := From(Received(c), source);
    forall b | b in got
      ensures Admissible(s.sent, c, b) && b.source == source
    {
      ReceivedTried(c, b);
    }
    forall i | 0 <= i < |got|
      ensures got[i].seqNo < |Sent(s, source)| && Sent(s, source)[got[i].seqNo] == got[i]
    {
      assert got[i] in got;
    }
    forall i, j | 0 <= i < j < |got|
      ensures got[i].seqNo < got[j].seqNo
    {
      assert got[i] in got && got[j] in got;
    }
  }

  /** Attempted = received + queued + dropped, as collections of broadcasts. */
  lemma Conservation(steps: seq<Step>, id: ClientId)
    requires Legal(steps) && id in Reached(steps).clients
    ensures var c := Reached(steps).clients[id];
            && multiset(c.attempts) == multiset(c.taken) + multiset(c.queue) + multiset(c.dropped)
            && |c.attempts| == |c.taken| + |c.queue| + |c.dropped|
  {
    InvReached(steps);
    var c := Reached(steps).clients[id];
    assert Accounted(Reached(steps).sent, c);
    assert multiset(Received(c)) == multiset(c.taken) + multiset(c.queue);
    assert |multiset(c.attempts)| == |multiset(c.taken)| + |multiset(c.queue)| + |multiset(c.dropped)|;
  }

  /** A step that drops a broadcast is a send that found all 256 places of the queue taken,
      and left the queue as it was. */
  lemma DropsOnlyWhenFull(steps: seq<Step>, step: Step, id: ClientId)
    requires Legal(steps) && Enabled(Reached(steps), step) && id in Reached(steps).clients
    requires Apply(Reached(steps), step).clients[id].dropped != Reached(steps).clients[id].dropped
    ensures step.Visit? && step.id == id
    ensures |Reached(steps).clients[id].queue| == 256
    ensures Apply(Reached(steps), step).clients[id].queue == Reached(steps).clients[id].queue
  {
    InvReached(steps);
    DropFoundFull(Reached(steps), step, id);
  }

  lemma DropFoundFull(s: System, step: Step, id: ClientId)
    requires Inv(s) && Enabled(s, step) && id in s.clients
    requires Apply(s, step).clients[id].dropped != s.clients[id].dropped
    ensures step.Visit? && step.id == id
    ensures |s.clients[id].queue| == 256 && Apply(s, step).clients[id].queue == s.clients[id].queue
  {
    assert Accounted(s.sent, s.clients[id]);
  }

  /** A Range that finishes has tried every client that stayed in the room throughout,
      except those of the sender. */
  lemma FinishedReachedAll(steps: seq<Step>, source: Source, id: ClientId)
    requires Legal(steps) && Enabled(Reached(steps), Finish(source))
    requires id in Reached(steps).ranges[source].must
    ensures var s := Reached(steps);
            var b := s.ranges[source].b;
            id in s.clients && (s.clients[id].user == b.event.sender || b in s.clients[id].attempts)
  {
    InvReached(steps);
    var s := Reached(steps);
    assert RangeSound(s.clients, s.ranges[source]);
    assert Tried(s.ranges[source], id, s.clients[id]);
  }

  // ---- From joining to being reached ----

  lemma {:induction false} LegalPrefix(steps: seq<Step>, k: nat)
    requires Legal(steps) && k <= |steps|
    ensures Legal(steps[..k])
    decreases |steps|
  {
    if k < |steps| {
      LegalPrefix(steps[..|steps| - 1], k);
      assert steps[..|steps| - 1][..k] == steps[..k];
    } else {
      assert steps[..k] == steps;
    }
  }

  /** One more step of a run. */
  lemma Next(steps: seq<Step>, k: nat)
    requires Legal(steps) && k < |steps|
    ensures Legal(steps[..k]) && Legal(steps[..k + 1]) && Enabled(Reached(steps[..k]), steps[k])
    ensures Reached(steps[..k + 1]) == Apply(Reached(steps[..k]), steps[k])
  {
    LegalPrefix(steps, k + 1);
    LegalPrefix(steps, k);
    assert steps[..k + 1][..k] == steps[..k];
  }

  ghost function At(steps: seq<Step>, k: nat): System
    requires Legal(steps) && k <= |steps|
  {
    LegalPrefix(steps, k);
    Reached(steps[..k])
  }

  /** Step h joins the client to the room, and from there to step k it does not leave it. */
  predicate Joined(steps: seq<Step>, h: nat, k: nat, id: ClientId, chat: Uuid)
  {
    h < k <= |steps| && steps[h] == Join(id, chat) && forall m :: h < m < k ==> steps[m] != Leave(id, chat)
  }

  lemma RoomStep(s: System, step: Step, id: ClientId, chat: Uuid)
    requires Enabled(s, step)
    ensures step == Join(id, chat) || (id in Room(s, chat) && step != Leave(id, chat)) ==>
              id in Room(Apply(s, step), chat)
    ensures step == Leave(id, chat) || (id !in Room(s, chat) && step != Join(id, chat)) ==>
              id !in Room(Apply(s, step), chat)
  {
  }

  /** Whoever has joined and not left since is in the room. */
  lemma {:induction false} JoinedStays(steps: seq<Step>, h: nat, k: nat, id: ClientId, chat: Uuid)
    requires Legal(steps) && Joined(steps, h, k, id, chat)
    ensures id in Room(At(steps, k), chat)
    decreases k
  {
    Next(steps, k - 1);
    RoomStep(At(steps, k - 1), steps[k - 1], id, chat);
    if h < k - 1 { JoinedStays(steps, h, k - 1, id, chat); }
  }

  /** The broadcast that step i starts. */
  ghost function Started(steps: seq<Step>, i: nat): Broadcast
    requires Legal(steps) && i < |steps| && steps[i].Start?
  {
    Broadcast(steps[i].source, |Sent(At(steps, i), steps[i].source)|, steps[i].event)
  }

  /** Between its start and its first finish, a Range over a room that the client is in, and does
      not leave, has the client still to visit or visited. */
  ghost predicate Underway(s: System, b: Broadcast, id: ClientId)
  {
    b.source in s.ranges && s.ranges[b.source].b == b && id in s.ranges[b.source].must
  }

  lemma StartUnderway(s: System, source: Source, event: Event, id: ClientId)
    requires Enabled(s, Start(source, event)) && id in Room(s, event.chat)
    ensures Underway(Apply(s, Start(source, event)), Broadcast(source, |Sent(s, source)|, event), id)
  {
  }

  lemma StepUnderway(s: System, step: Step, b: Broadcast, id: ClientId)
    requires Enabled(s, step) && Underway(s, b, id)
    requires step != Finish(b.source) && step != Leave(id, b.event.chat)
    ensures Underway(Apply(s, step), b, id)
  {
  }

  lemma {:induction false} RunUnderway(steps: seq<Step>, i: nat, k: nat, id: ClientId)
    requires Legal(steps) && i < k <= |steps| && steps[i].Start?
    requires id in Room(At(steps, i), steps[i].event.chat)
    requires forall m :: i < m < k ==> steps[m] != Finish(steps[i].source) && steps[m] != Leave(id, steps[i].event.chat)
    ensures Underway(At(steps, k), Started(steps, i), id)
    decreases k
  {
    Next(steps, k - 1);
    if k == i + 1 {
      StartUnderway(At(steps, i), steps[i].source, steps[i].event, id);
    } else {
      RunUnderway(steps, i, k - 1, id);
      StepUnderway(At(steps, k - 1), steps[k - 1], Started(steps, i), id);
    }
  }

  /** A broadcast reaches everybody: whoever joined the chat before it started, and has not left
      when it finishes, has been tried with it, unless it is the sender's own user. */
  lemma BroadcastReaches(steps: seq<Step>, h: nat, i: nat, j: nat, id: ClientId)
    requires Legal(steps) && h < i < j < |steps| && steps[i].Start?
    requires Joined(steps, h, j, id, steps[i].event.chat)
    requires steps[j] == Finish(steps[i].source) && forall m :: i < m < j ==> steps[m] != steps[j]
    ensures var c := At(steps, j).clients;
            id in c && (c[id].user == steps[i].event.sender || Started(steps, i) in c[id].attempts)
  {
    JoinedStays(steps, h, i, id, steps[i].event.chat);
    RunUnderway(steps, i, j, id);
    Next(steps, j);
    FinishedReachedAll(steps[..j], steps[i].source, id);
  }

  /** Step h takes the client out of the room, and from there to step k it does not join it again. */
  predicate Gone(steps: seq<Step>, h: nat, k: nat, id: ClientId, chat: Uuid)
  {
    h < k <= |steps| && steps[h] == Leave(id, chat) && forall m :: h < m < k ==> steps[m] != Join(id, chat)
  }

  lemma {:induction false} GoneStays(steps: seq<Step>, h: nat, k: nat, id: ClientId, chat: Uuid)
    requires Legal(steps) && Gone(steps, h, k, id, chat)
    ensures id !in Room(At(steps, k), chat)
    decreases k
  {
    Next(steps, k - 1);
    RoomStep(At(steps, k - 1), steps[k - 1], id, chat);
    if h < k - 1 { GoneStays(steps, h, k - 1, id, chat); }
  }

  /** The client has not been tried with the broadcast, and its Range, if on, will not visit it. */
  ghost predicate PassedOver(s: System, b: Broadcast, id: ClientId)
  {
    && WasSent(s.sent, b)
    && (id in s.clients ==> b !in s.clients[id].attempts)
    && (forall source :: source in s.ranges && s.ranges[source].b == b ==> id !in s.ranges[source].may)
  }

  lemma StartPassesOver(s: System, source: Source, event: Event, id: ClientId)
    requires Inv(s) && Enabled(s, Start(source, event)) && id !in Room(s, event.chat)
    ensures PassedOver(Apply(s, Start(source, event)), Broadcast(source, |Sent(s, source)|, event), id)
  {
    var b := Broadcast(source, |Sent(s, source)|, event);
    if id in s.clients { FreshUntried(s.sent, s.clients[id], b); }
    forall other | other in s.ranges
      ensures s.ranges[other].b != b
    {
      assert Current(s.sent, other, s.ranges[other]);
    }
  }

  lemma VisitPassesOver(s: System, source: Source, x: ClientId, b: Broadcast, id: ClientId)
    requires Enabled(s, Visit(source, x)) && PassedOver(s, b, id)
    ensures PassedOver(Apply(s, Visit(source, x)), b, id)
  {
    var s' := Apply(s, Visit(source, x));
    assert s.ranges[source].b == b ==> id !in s.ranges[source].may;
    assert forall other :: other in s'.ranges ==>
      s'.ranges[other].b == s.ranges[other].b && s'.ranges[other].may == s.ranges[other].may;
  }

  lemma RoomPassesOver(s: System, step: Step, b: Broadcast, id: ClientId)
    requires Enabled(s, step) && (step.Join? || step.Leave?) && PassedOver(s, b, id) && step != Join(id, b.event.chat)
    ensures PassedOver(Apply(s, step), b, id)
  {
    var s' := Apply(s, step);
    forall source | source in s'.ranges && s'.ranges[source].b == b
      ensures id !in s'.ranges[source].may
    {
      assert s.ranges[source].b == b;
    }
  }

  lemma StartElsewhere(s: System, source: Source, event: Event, b: Broadcast, id: ClientId)
    requires Enabled(s, Start(source, event)) && PassedOver(s, b, id)
    ensures PassedOver(Apply(s, Start(source, event)), b, id)
  {
    assert Broadcast(source, |Sent(s, source)|, event) != b;
  }

  lemma StepPassesOver(s: System, step: Step, b: Broadcast, id: ClientId)
    requires Enabled(s, step) && PassedOver(s, b, id) && step != Join(id, b.event.chat)
    ensures PassedOver(Apply(s, step), b, id)
  {
    match step
    case Visit(source, x) => VisitPassesOver(s, source, x, b, id);
    case Join(_, _) => RoomPassesOver(s, step, b, id);
    case Leave(_, _) => RoomPassesOver(s, step, b, id);
    case Start(source, event) => StartElsewhere(s, source, event, b, id);
    case _ =>
  }

  lemma PassedOverFirst(steps: seq<Step>, i: nat, id: ClientId)
    requires Legal(steps) && i < |steps| && steps[i].Start?
    requires id !in Room(At(steps, i), steps[i].event.chat)
    ensures PassedOver(At(steps, i + 1), Started(steps, i), id)
  {
    Next(steps, i);
    InvReached(steps[..i]);
    StartPassesOver(At(steps, i), steps[i].source, steps[i].event, id);
  }

  lemma PassedOverNext(steps: seq<Step>, k: nat, b: Broadcast, id: ClientId)
    requires Legal(steps) && k < |steps| && steps[k] != Join(id, b.event.chat) && PassedOver(At(steps, k), b, id)
    ensures PassedOver(At(steps, k + 1), b, id)
  {
    Next(steps, k);
    StepPassesOver(At(steps, k), steps[k], b, id);
  }

  lemma {:induction false} RunPassesOver(steps: seq<Step>, i: nat, k: nat, id: ClientId)
    requires Legal(steps) && i < k <= |steps| && steps[i].Start?
    requires id !in Room(At(steps, i), steps[i].event.chat)
    requires forall m :: i < m < k ==> steps[m] != Join(id, steps[i].event.chat)
    ensures PassedOver(At(steps, k), Started(steps, i), id)
    decreases k
  {
    if k == i + 1 {
      PassedOverFirst(steps, i, id);
    } else {
      RunPassesOver(steps, i, k - 1, id);
      PassedOverNext(steps, k - 1, Started(steps, i), id);
    }
  }

  /** And whoever left the chat before it started, and has not come back, is not tried. */
  lemma BroadcastPassesOver(steps: seq<Step>, h: nat, i: nat, j: nat, id: ClientId)
    requires Legal(steps) && h < i < j <= |steps| && steps[i].Start?
    requires Gone(steps, h, j, id, steps[i].event.chat)
    ensures var c := At(steps, j).clients; id in c ==> Started(steps, i) !in c[id].attempts
  {
    GoneStays(steps, h, i, id, steps[i].event.chat);
    RunPassesOver(steps, i, j, id);
  }

  /** Somebody who joins while a Range over the room is on may still be visited by it. */
  lemma JoinerMayBeVisited(s: System, id: ClientId, chat: Uuid, source: Source)
    requires Inv(s) && Enabled(s, Join(id, chat))
    requires source in s.ranges && s.ranges[source].b.event.chat == chat && id !in s.ranges[source].visited
    ensures Enabled(Apply(s, Join(id, chat)), Visit(source, id))
  {
  }

  // ---- What the pump takes ----

  /** n receives in a row, each of which finds an element, lead from s to s'. */
  ghost predicate Drains(s: System, id: ClientId, n: nat, s': System)
    decreases n
  {
    if n == 0 then s' == s else Enabled(s, DrainOne(id)) && Drains(Apply(s, DrainOne(id)), id, n - 1, s')
  }

  lemma OneDrain(s: System, id: ClientId, n: nat)
    requires id in s.clients && s.clients[id].pump == Draining(n + 1) && s.clients[id].queue != []
    ensures Enabled(s, DrainOne(id)) && id in Apply(s, DrainOne(id)).clients
    ensures var c, c' := s.clients[id], Apply(s, DrainOne(id)).clients[id];
            c'.pump == Draining(n) && c'.queue == c.queue[1..] && c'.taken == c.taken + [c.queue[0]]
  {
  }

  lemma {:induction false} DrainTakes(s: System, id: ClientId, n: nat) returns (s': System)
    requires id in s.clients && s.clients[id].pump == Draining(n) && n <= |s.clients[id].queue|
    ensures Drains(s, id, n, s') && id in s'.clients && s'.clients[id].pump == Draining(0)
    ensures s'.clients[id].taken == s.clients[id].taken + s.clients[id].queue[..n]
    ensures s'.clients[id].queue == s.clients[id].queue[n..]
    decreases n
  {
    s' := s;
    var q := s.clients[id].queue;
    if n > 0 {
      OneDrain(s, id, n - 1);
      s' := DrainTakes(Apply(s, DrainOne(id)), id, n - 1);
      assert q[..n] == [q[0]] + q[1..][..n - 1];
    } else {
      assert q[..0] == [];
    }
  }

  lemma WakesAndReads(s: System, id: ClientId)
    requires Enabled(s, Wake(id))
    ensures var s1 := Apply(s, Wake(id));
            Enabled(s1, ReadLength(id)) &&
            var c, s2 := s.clients[id], Apply(s1, ReadLength(id));
            && id in s2.clients && c.queue != [] && s2.clients[id].pump == Draining(|c.queue| - 1)
            && s2.clients[id].queue == c.queue[1..] && s2.clients[id].taken == c.taken + [c.queue[0]]
  {
  }

  lemma DrainEnds(s: System, id: ClientId)
    requires id in s.clients && s.clients[id].pump == Draining(0)
    ensures Enabled(s, DrainDone(id)) && Apply(s, DrainDone(id)).clients[id] == s.clients[id].(pump := Waiting)
  {
  }

  /** The pump wakes up with the first event, reads the length of what is queued and, with nobody
      sending meanwhile, takes all of it, in order, and goes back to waiting. */
  lemma PumpTakesAll(s: System, id: ClientId) returns (s': System)
    requires Enabled(s, Wake(id))
    ensures var s1 := Apply(s, Wake(id));
            && Enabled(s1, ReadLength(id)) && s.clients[id].queue != []
            && Drains(Apply(s1, ReadLength(id)), id, |s.clients[id].queue| - 1, s') && Enabled(s', DrainDone(id))
    ensures var c, c' := s.clients[id], Apply(s', DrainDone(id)).clients[id];
            c'.taken == c.taken + c.queue && c'.queue == [] && c'.pump.Waiting?
  {
    var q := s.clients[id].queue;
    WakesAndReads(s, id);
    s' := DrainTakes(Apply(Apply(s, Wake(id)), ReadLength(id)), id, |q| - 1);
    DrainEnds(s', id);
    assert q == [q[0]] + q[1..] && q[1..][..|q| - 1] == q[1..];
  }

  /** After a failed write nothing more is taken for the client, whatever happens. */
  lemma FailedPumpStops(s: System, id: ClientId, step: Step)
    requires Enabled(s, WriteFails(id)) && Enabled(Apply(s, WriteFails(id)), step)
    ensures var s1 := Apply(s, WriteFails(id));
            id in s1.clients && id in Apply(s1, step).clients &&
            Apply(s1, step).clients[id].pump.Stopped? && Apply(s1, step).clients[id].taken == s.clients[id].taken
  {
  }

  // ---- Nobody waits ----

  /** Whenever the pump has receives left to make, the next one finds an element. */
  lemma DrainNeverBlocks(steps: seq<Step>, id: ClientId)
    requires Legal(steps) && id in Reached(steps).clients
    requires Reached(steps).clients[id].pump.Draining? && Reached(steps).clients[id].pump.left > 0
    ensures Enabled(Reached(steps), DrainOne(id))
  {
    InvReached(steps);
    assert Accounted(Reached(steps).sent, Reached(steps).clients[id]);
  }

  /** The next step of a Range exists, whatever the queues hold. */
  ghost predicate CanGoOn(s: System, source: Source)
    requires source in s.ranges
  {
    var r := s.ranges[source];
    && (forall id :: id in r.must - r.visited ==> Enabled(s, Visit(source, id)))
    && (r.must <= r.visited ==> Enabled(s, Finish(source)))
  }

  lemma RangeGoesOn(s: System, source: Source)
    requires Inv(s) && source in s.ranges
    ensures CanGoOn(s, source)
  {
    assert RangeSound(s.clients, s.ranges[source]);
  }

  /** A broadcaster in the middle of a Range can always go on: visit any client it still has
      to, full queue or not, or finish. */
  lemma BroadcasterNeverWaits(steps: seq<Step>, source: Source)
    requires Legal(steps) && source in Reached(steps).ranges
    ensures CanGoOn(Reached(steps), source)
  {
    InvReached(steps);
    RangeGoesOn(Reached(steps), source);
  }

}
