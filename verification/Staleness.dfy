/** The caching repositories under concurrency: every repository call a process taking atomic
    steps (cache Get, origin access, cache Set or Del), in any interleaving, with cache
    operations failing at will. What a hit returns may be old, but only so old. */
module Staleness {
  import opened Wrappers
  import opened Domain
  import opened CacheKeys
  import Sql = ChatTables

  /** Lifetimes of cached users, chats and memberships, and the longest time between an access
      to the origin and the last clock reading of the Sets that follow from it. */
  datatype Config = Config(userTtl: int, chatTtl: int, memberTtl: int, delay: int)

  ghost predicate Sane(c: Config)
  {
    c.userTtl > 0 && c.chatTtl > 0 && c.memberTtl > 0 && c.delay >= 0
  }

  function Ttl(c: Config, k: Key): int
  {
    match k
    case UserKey(_) => c.userTtl
    case ChatKey(_) => c.chatTtl
    case MemberKey(_, _) => c.memberTtl
    case IsMemberKey(_, _) => c.memberTtl
  }

  /** The origin: chats and members, and users as far as JSON shows them. */
  datatype World = World(t: Sql.Tables, profiles: map<Id, PublicUser>)

  /** What the origin answers for a key; the user joined to a member is not compared. */
  function View(w: World, k: Key): Option<CacheValue>
  {
    match k
    case UserKey(id) => if id in w.profiles then Some(UserJson(w.profiles[id])) else None
    case ChatKey(id) =>
      var r := Sql.GetByID(w.t, id);
      if r.Ok? then Some(ChatJson(r.value)) else None
    case MemberKey(chat, user) =>
      var r := Sql.GetMember(w.t, chat, user);
      if r.Ok? then Some(MemberJson(ChatMember(chat, user, r.value, false))) else None
    case IsMemberKey(chat, user) => Some(Flag(if Sql.IsMember(w.t, chat, user) then "1" else "0"))
  }

  function Shown(v: CacheValue): CacheValue
  {
    if v.MemberJson? then MemberJson(v.member.(joined := false)) else v
  }

  datatype Entry = Entry(value: CacheValue, expiresAt: int)

  datatype Snapshot = Snapshot(at: int, w: World)

  datatype CacheOp =
    | SetOp(key: Key, value: CacheValue)
    | DelOp(key: Key)

  /** Where a call stands. */
  datatype Process =
    | Missed(key: Key)                                // the cache did not answer
    | Pending(ops: seq<CacheOp>, at: int)             // cache operations due since the origin access
    | Updating(chat: Chat)                            // chat invalidated, not yet written
    | Deleting(gone: Id, users: seq<Id>)              // members listed, chat not yet deleted

  /** `history` has the origin since each of its writes, the first entry being the start. */
  datatype State = State(now: int, history: seq<Snapshot>, cache: map<Key, Entry>, procs: map<nat, Process>)

  datatype Write =
    | CreateChat(created: Chat, members: seq<ChatMember>)
    | AddMember(m: ChatMember)
    | RemoveMember(chat: Id, user: Id)
    | SetRole(chat: Id, user: Id, role: Role)
    | NewUser(profile: PublicUser)
    | PutUser(profile: PublicUser)                    // Update and UpdateStatus
    | DropUser(user: Id)

  datatype Step =
    | Tick(to: int)
    | Hit(key: Key)
    | Miss(pid: nat, key: Key)
    | ReadOrigin(pid: nat, joined: bool)
    | WriteOrigin(pid: nat, write: Write)
    | StartUpdate(pid: nat, chat: Chat, ok: bool)
    | FinishUpdate(pid: nat)
    | StartDelete(pid: nat, gone: Id)
    | FinishDelete(pid: nat)
    | UseCache(pid: nat, ok: bool, clock: int)
    | Finish(pid: nat)
    | Evict(key: Key)

  function Init(w: World, now: int): State
  {
    State(now, [Snapshot(now, w)], map[], map[])
  }

  function Origin(s: State): World
    requires s.history != []
  {
    s.history[|s.history| - 1].w
  }

  function Written(w: World, write: Write): Option<World>
  {
    match write
    case CreateChat(chat, members) => Tables(w, Sql.CreateWithMembers(w.t, chat, members))
    case AddMember(m) => Tables(w, Sql.AddMember(w.t, m))
    case RemoveMember(chat, user) => Tables(w, Sql.RemoveMember(w.t, chat, user))
    case SetRole(chat, user, role) => Tables(w, Sql.UpdateMemberRole(w.t, chat, user, role))
    case NewUser(p) => if p.id in w.profiles then None else Some(w.(profiles := w.profiles[p.id := p]))
    case PutUser(p) => if p.id in w.profiles then Some(w.(profiles := w.profiles[p.id := p])) else None
    case DropUser(user) => Some(w.(profiles := w.profiles - {user}))
  }

  function Tables(w: World, r: Result<Sql.Tables>): Option<World>
  {
    if r.Ok? then Some(w.(t := r.value)) else None
  }

  /** The cache operations a write is followed by. */
  function Due(write: Write): seq<CacheOp>
  {
    match write
    case CreateChat(chat, members) => Seeds(chat.id, members)
    case AddMember(m) => SetsFor(m.chat, m)
    case RemoveMember(chat, user) => [DelOp(IsMemberKey(chat, user)), DelOp(MemberKey(chat, user))]
    case SetRole(chat, user, _) => [DelOp(MemberKey(chat, user))]
    case NewUser(_) => []
    case PutUser(p) => [DelOp(UserKey(p.id))]
    case DropUser(user) => [DelOp(UserKey(user))]
  }

  function Seeds(chat: Id, members: seq<ChatMember>): seq<CacheOp>
    decreases |members|
  {
    if members == [] then [] else
    SetsFor(chat, members[0]) + Seeds(chat, members[1..])
  }

  function SetsFor(chat: Id, m: ChatMember): seq<CacheOp>
  {
    [SetOp(IsMemberKey(chat, m.user), Flag("1")), SetOp(MemberKey(chat, m.user), MemberJson(m))]
  }

  function Invalidations(chat: Id, users: seq<Id>): seq<CacheOp>
    decreases |users|
  {
    if users == [] then [] else
    [DelOp(IsMemberKey(chat, users[0])), DelOp(MemberKey(chat, users[0]))] + Invalidations(chat, users[1..])
  }

  predicate Hits(s: State, key: Key)
  {
    key in s.cache && s.now <= s.cache[key].expiresAt
  }

  /** A SetOp is timely when its clock is within the delay after the origin access. */
  predicate Enabled(c: Config, s: State, step: Step)
  {
    s.history != [] &&
    match step
    case Tick(to) => to >= s.now
    case Hit(key) => Hits(s, key)
    case Miss(pid, _) => pid !in s.procs
    case ReadOrigin(pid, _) => pid in s.procs && s.procs[pid].Missed?
    case WriteOrigin(pid, write) =>
      pid !in s.procs && Written(Origin(s), write).Some? &&
      (write.CreateChat? ==> forall i :: 0 <= i < |write.members| ==> write.members[i].chat == write.created.id)
    case StartUpdate(pid, _, _) => pid !in s.procs
    case FinishUpdate(pid) => pid in s.procs && s.procs[pid].Updating?
    case StartDelete(pid, _) => pid !in s.procs
    case FinishDelete(pid) => pid in s.procs && s.procs[pid].Deleting?
    case UseCache(pid, ok, clock) =>
      pid in s.procs && s.procs[pid].Pending? && s.procs[pid].ops != [] &&
      (ok && s.procs[pid].ops[0].SetOp? ==> clock <= s.procs[pid].at + c.delay)
    case Finish(pid) => pid in s.procs
    case Evict(_) => true
  }

  function Record(s: State, w: World): State
  {
    s.(history := s.history + [Snapshot(s.now, w)])
  }

  function Do(c: Config, cache: map<Key, Entry>, op: CacheOp, clock: int): map<Key, Entry>
  {
    match op
    case SetOp(key, value) => cache[key := Entry(value, clock + Ttl(c, key))]
    case DelOp(key) => cache - {key}
  }

  function Found(k: Key, v: CacheValue, joined: bool): CacheValue
  {
    if v.MemberJson? then MemberJson(v.member.(joined := joined)) else v
  }

  function Apply(c: Config, s: State, step: Step): State
    requires Enabled(c, s, step)
  {
    match step
    case Tick(to) => s.(now := to)
    case Hit(_) => s
    case Miss(pid, key) => s.(procs := s.procs[pid := Missed(key)])
    case ReadOrigin(pid, joined) =>
      var key := s.procs[pid].key;
      (match View(Origin(s), key)
       case None => s.(procs := s.procs - {pid})
       case Some(v) => s.(procs := s.procs[pid := Pending([SetOp(key, Found(key, v, joined))], s.now)]))
    case WriteOrigin(pid, write) =>
      Record(s, Written(Origin(s), write).value).(procs := s.procs[pid := Pending(Due(write), s.now)])
    case StartUpdate(pid, chat, ok) =>
      s.(procs := s.procs[pid := Updating(chat)],
         cache := if ok then s.cache - {ChatKey(chat.id)} else s.cache)
    case FinishUpdate(pid) =>
      (match Tables(Origin(s), Sql.Update(Origin(s).t, s.procs[pid].chat))
       case None => s.(procs := s.procs - {pid})
       case Some(w) => Record(s, w).(procs := s.procs - {pid}))
    case StartDelete(pid, chat) =>
      var members := Sql.GetMembers(Origin(s).t, chat);
      s.(procs := s.procs[pid := Deleting(chat, seq(|members|, i requires 0 <= i < |members| => members[i].user))])
    case FinishDelete(pid) =>
      var p := s.procs[pid];
      var w := Origin(s).(t := Sql.Delete(Origin(s).t, p.gone));
      Record(s, w).(procs := s.procs[pid := Pending([DelOp(ChatKey(p.gone))] + Invalidations(p.gone, p.users), s.now)])
    case UseCache(pid, ok, clock) =>
      var p := s.procs[pid];
      s.(procs := s.procs[pid := Pending(p.ops[1..], p.at)],
         cache := if ok then Do(c, s.cache, p.ops[0], clock) else s.cache)
    case Finish(pid) => s.(procs := s.procs - {pid})
    case Evict(key) => s.(cache := s.cache - {key})
  }

  predicate Legal(c: Config, start: State, steps: seq<Step>)
    decreases |steps|, 0
  {
    steps == [] ||
    (Legal(c, start, steps[..|steps| - 1]) && Enabled(c, Reached(c, start, steps[..|steps| - 1]), steps[|steps| - 1]))
  }

  function Reached(c: Config, start: State, steps: seq<Step>): State
    requires Legal(c, start, steps)
    decreases |steps|, 1
  {
    if steps == [] then start
    else Apply(c, Reached(c, start, steps[..|steps| - 1]), steps[|steps| - 1])
  }

  // ---- What the origin held when ----

  /** Snapshot i was the origin's state at instant x; at the very instant of a write, both the
      state before and the state after count. */
  ghost predicate Stood(history: seq<Snapshot>, now: int, i: int, x: int)
  {
    0 <= i < |history| && history[i].at <= x <= (if i + 1 < |history| then history[i + 1].at else now)
  }

  /** The origin answered v for k at instant x. */
  ghost predicate Held(s: State, k: Key, v: CacheValue, x: int)
  {
    exists i :: Stood(s.history, s.now, i, x) && View(s.history[i].w, k) == Some(Shown(v))
  }

  ghost predicate TimeSound(s: State)
  {
    s.history != [] && s.history[|s.history| - 1].at <= s.now
  }

  /** Every entry was held at some instant that its expiry outlives by the lifetime and the delay. */
  ghost predicate EntrySound(c: Config, s: State, k: Key, e: Entry)
  {
    exists x :: x <= s.now && Held(s, k, e.value, x) && e.expiresAt <= x + c.delay + Ttl(c, k)
  }

  ghost predicate OpSound(s: State, op: CacheOp, at: int)
  {
    op.SetOp? ==> Held(s, op.key, op.value, at)
  }

  ghost predicate ProcSound(s: State, p: Process)
  {
    p.Pending? ==> p.at <= s.now && forall i :: 0 <= i < |p.ops| ==> OpSound(s, p.ops[i], p.at)
  }

  ghost predicate Inv(c: Config, s: State)
  {
    && TimeSound(s)
    && (forall k :: k in s.cache ==> EntrySound(c, s, k, s.cache[k]))
    && (forall pid :: pid in s.procs ==> ProcSound(s, s.procs[pid]))
  }

  /** Time passes, or the origin is written now; what was held stays held. */
  ghost predicate Onward(s: State, s': State)
  {
    && TimeSound(s) && s.now <= s'.now
    && (s'.history == s.history ||
        (s'.now == s.now && |s'.history| == |s.history| + 1 && s'.history[..|s.history|] == s.history &&
         s'.history[|s.history|].at == s.now))
  }

  lemma HeldOnward(s: State, s': State, k: Key, v: CacheValue, x: int)
    requires Onward(s, s') && Held(s, k, v, x)
    ensures Held(s', k, v, x)
  {
    var i :| Stood(s.history, s.now, i, x) && View(s.history[i].w, k) == Some(Shown(v));
    assert s'.history[i] == s.history[i];
    assert i + 1 < |s.history| ==> s'.history[i + 1] == s.history[i + 1];
    assert Stood(s'.history, s'.now, i, x);
  }

  lemma HeldNow(s: State, k: Key, v: CacheValue)
    requires TimeSound(s) && View(Origin(s), k) == Some(Shown(v))
    ensures Held(s, k, v, s.now)
  {
    assert Stood(s.history, s.now, |s.history| - 1, s.now);
  }

  lemma EntryOnward(c: Config, s: State, s': State, k: Key, e: Entry)
    requires Onward(s, s') && EntrySound(c, s, k, e)
    ensures EntrySound(c, s', k, e)
  {
    var x :| x <= s.now && Held(s, k, e.value, x) && e.expiresAt <= x + c.delay + Ttl(c, k);
    HeldOnward(s, s', k, e.value, x);
  }

  lemma ProcOnward(s: State, s': State, p: Process)
    requires Onward(s, s') && ProcSound(s, p)
    ensures ProcSound(s', p)
  {
    if p.Pending? {
      forall i | 0 <= i < |p.ops|
        ensures OpSound(s', p.ops[i], p.at)
      {
        assert OpSound(s, p.ops[i], p.at);
        if p.ops[i].SetOp? { HeldOnward(s, s', p.ops[i].key, p.ops[i].value, p.at); }
      }
    }
  }

  /** The invariant goes on when no entry is added and at most one process changes, soundly. */
  lemma InvOnward(c: Config, s: State, s': State, pid: nat)
    requires Inv(c, s) && Onward(s, s') && TimeSound(s')
    requires forall k :: k in s'.cache ==> k in s.cache && s'.cache[k] == s.cache[k]
    requires forall p :: p in s'.procs && p != pid ==> p in s.procs && s'.procs[p] == s.procs[p]
    requires pid in s'.procs ==> ProcSound(s', s'.procs[pid])
    ensures Inv(c, s')
  {
    forall k | k in s'.cache
      ensures EntrySound(c, s', k, s'.cache[k])
    {
      EntryOnward(c, s, s', k, s.cache[k]);
    }
    forall p | p in s'.procs
      ensures ProcSound(s', s'.procs[p])
    {
      if p != pid { ProcOnward(s, s', s.procs[p]); }
    }
  }

  // ---- The values written to the cache are those the origin holds ----

  /** A Set says what the origin answers. */
  ghost predicate Says(w: World, op: CacheOp)
  {
    op.SetOp? ==> View(w, op.key) == Some(Shown(op.value))
  }

  lemma {:induction false} SeedsSay(w: World, chat: Id, members: seq<ChatMember>)
    requires forall i :: 0 <= i < |members| ==> members[i].chat == chat && Sql.Inserted(w.t, members[i])
    ensures forall i :: 0 <= i < |Seeds(chat, members)| ==> Says(w, Seeds(chat, members)[i])
    decreases |members|
  {
    if members != [] {
      var rest := Seeds(chat, members[1..]);
      SeedsSay(w, chat, members[1..]);
      assert Sql.Inserted(w.t, members[0]);
      assert forall i :: 2 <= i < |rest| + 2 ==> Seeds(chat, members)[i] == rest[i - 2];
    }
  }

  lemma {:induction false} InvalidationsSound(s: State, chat: Id, users: seq<Id>)
    ensures forall i :: 0 <= i < |Invalidations(chat, users)| ==> Invalidations(chat, users)[i].DelOp?
    decreases |users|
  {
    if users != [] { InvalidationsSound(s, chat, users[1..]); }
  }

  /** Whatever a write puts in the cache is what the origin answers from the write on. */
  lemma DueSays(w: World, write: Write, w': World)
    requires Written(w, write) == Some(w')
    requires write.CreateChat? ==> forall i :: 0 <= i < |write.members| ==> write.members[i].chat == write.created.id
    ensures forall i :: 0 <= i < |Due(write)| ==> Says(w', Due(write)[i])
  {
    if write.CreateChat? {
      Sql.InsertMembersAdds(w.t.(chats := w.t.chats[write.created.id := write.created]), write.members);
      SeedsSay(w', write.created.id, write.members);
    }
  }

  lemma DueSound(s: State, write: Write, s': State)
    requires TimeSound(s) && TimeSound(s') && s'.now == s.now
    requires Written(Origin(s), write) == Some(Origin(s'))
    requires write.CreateChat? ==> forall i :: 0 <= i < |write.members| ==> write.members[i].chat == write.created.id
    ensures ProcSound(s', Pending(Due(write), s'.now))
  {
    DueSays(Origin(s), write, Origin(s'));
    forall i | 0 <= i < |Due(write)|
      ensures OpSound(s', Due(write)[i], s'.now)
    {
      var op := Due(write)[i];
      assert Says(Origin(s'), op);
      if op.SetOp? { HeldNow(s', op.key, op.value); }
    }
  }

  lemma InvWrite(c: Config, s: State, pid: nat, write: Write)
    requires Inv(c, s) && Enabled(c, s, WriteOrigin(pid, write))
    ensures Inv(c, Apply(c, s, WriteOrigin(pid, write)))
  {
    var s' := Apply(c, s, WriteOrigin(pid, write));
    DueSound(s, write, s');
    InvOnward(c, s, s', pid);
  }

  lemma InvRead(c: Config, s: State, pid: nat, joined: bool)
    requires Inv(c, s) && Enabled(c, s, ReadOrigin(pid, joined))
    ensures Inv(c, Apply(c, s, ReadOrigin(pid, joined)))
  {
    var s' := Apply(c, s, ReadOrigin(pid, joined));
    var key := s.procs[pid].key;
    var v := View(Origin(s), key);
    if v.Some? { HeldNow(s', key, Found(key, v.value, joined)); }
    InvOnward(c, s, s', pid);
  }

  lemma InvUseCache(c: Config, s: State, pid: nat, ok: bool, clock: int)
    requires Inv(c, s) && Enabled(c, s, UseCache(pid, ok, clock))
    ensures Inv(c, Apply(c, s, UseCache(pid, ok, clock)))
  {
    var s' := Apply(c, s, UseCache(pid, ok, clock));
    var p := s.procs[pid];
    assert ProcSound(s, p) && OpSound(s, p.ops[0], p.at);
    var s1 := s.(procs := s'.procs);
    assert ProcSound(s1, s'.procs[pid]) by {
      assert forall i :: 0 <= i < |p.ops[1..]| ==> p.ops[1..][i] == p.ops[i + 1];
      ProcOnward(s, s1, p);
    }
    InvOnward(c, s, s1, pid);
    forall k | k in s'.cache
      ensures EntrySound(c, s', k, s'.cache[k])
    {
      if ok && p.ops[0].SetOp? && k == p.ops[0].key {
        HeldOnward(s, s', k, p.ops[0].value, p.at);
      } else {
        EntryOnward(c, s, s', k, s.cache[k]);
      }
    }
    forall q | q in s'.procs
      ensures ProcSound(s', s'.procs[q])
    {
      ProcOnward(s1, s', s'.procs[q]);
    }
  }

  lemma InvUpdate(c: Config, s: State, pid: nat)
    requires Inv(c, s) && Enabled(c, s, FinishUpdate(pid))
    ensures Inv(c, Apply(c, s, FinishUpdate(pid)))
  {
    InvOnward(c, s, Apply(c, s, FinishUpdate(pid)), pid);
  }

  lemma InvDelete(c: Config, s: State, pid: nat)
    requires Inv(c, s) && Enabled(c, s, FinishDelete(pid))
    ensures Inv(c, Apply(c, s, FinishDelete(pid)))
  {
    var s' := Apply(c, s, FinishDelete(pid));
    InvalidationsSound(s, s.procs[pid].gone, s.procs[pid].users);
    InvOnward(c, s, s', pid);
  }

  lemma InvOther(c: Config, s: State, step: Step, pid: nat)
    requires Inv(c, s) && Enabled(c, s, step)
    requires match step
             case Tick(_) => true
             case Hit(_) => true
             case Miss(q, _) => q == pid
             case StartUpdate(q, _, _) => q == pid
             case StartDelete(q, _) => q == pid
             case Finish(q) => q == pid
             case Evict(_) => true
             case _ => false
    ensures Inv(c, Apply(c, s, step))
  {
    var s' := Apply(c, s, step);
    if pid in s'.procs && pid in s.procs { ProcOnward(s, s', s.procs[pid]); }
    InvOnward(c, s, s', pid);
  }

  lemma InvStep(c: Config, s: State, step: Step)
    requires Inv(c, s) && Enabled(c, s, step)
    ensures Inv(c, Apply(c, s, step))
  {
    match step
    case Tick(_) => InvOther(c, s, step, 0);
    case Hit(_) => InvOther(c, s, step, 0);
    case Miss(pid, _) => InvOther(c, s, step, pid);
    case ReadOrigin(pid, joined) => InvRead(c, s, pid, joined);
    case WriteOrigin(pid, write) => InvWrite(c, s, pid, write);
    case StartUpdate(pid, _, _) => InvOther(c, s, step, pid);
    case FinishUpdate(pid) => InvUpdate(c, s, pid);
    case StartDelete(pid, _) => InvOther(c, s, step, pid);
    case FinishDelete(pid) => InvDelete(c, s, pid);
    case UseCache(pid, ok, clock) => InvUseCache(c, s, pid, ok, clock);
    case Finish(pid) => InvOther(c, s, step, pid);
    case Evict(_) => InvOther(c, s, step, 0);
  }

  lemma {:induction false} InvReached(c: Config, w: World, now: int, steps: seq<Step>)
    requires Legal(c, Init(w, now), steps)
    ensures Inv(c, Reached(c, Init(w, now), steps))
    decreases |steps|
  {
    if steps != [] {
      var before := steps[..|steps| - 1];
      InvReached(c, w, now, before);
      InvStep(c, Reached(c, Init(w, now), before), steps[|steps| - 1]);
    }
  }

  /** What the key's entry says, the origin answered at some instant of [now - age, now]. */
  ghost predicate RecentlyTrue(s: State, key: Key, age: int)
    requires key in s.cache
  {
    exists x :: s.now - age <= x <= s.now && Held(s, key, s.cache[key].value, x)
  }

  lemma HitSound(c: Config, s: State, key: Key)
    requires Inv(c, s) && Hits(s, key)
    ensures RecentlyTrue(s, key, Ttl(c, key) + c.delay)
  {
    assert EntrySound(c, s, key, s.cache[key]);
    var x :| x <= s.now && Held(s, key, s.cache[key].value, x) && s.cache[key].expiresAt <= x + c.delay + Ttl(c, key);
  }

  /** In every interleaving and with any cache operations failing, a hit at time t returns what
      the origin answered at some instant of [t - lifetime - delay, t], with the lifetime of
      users, of chats, or of members and membership flags. */
  lemma BoundedStaleness(c: Config, w: World, now: int, steps: seq<Step>, key: Key)
    requires Sane(c) && Legal(c, Init(w, now), steps)
    requires Hits(Reached(c, Init(w, now), steps), key)
    ensures var s := Reached(c, Init(w, now), steps);
            && (key.UserKey? ==> RecentlyTrue(s, key, c.userTtl + c.delay))
            && (key.ChatKey? ==> RecentlyTrue(s, key, c.chatTtl + c.delay))
            && (key.MemberKey? || key.IsMemberKey? ==> RecentlyTrue(s, key, c.memberTtl + c.delay))
  {
    InvReached(c, w, now, steps);
    HitSound(c, Reached(c, Init(w, now), steps), key);
  }

  // ---- Invalidating before the write does not keep old values out ----

  lemma Then(c: Config, start: State, steps: seq<Step>, step: Step)
    requires Legal(c, start, steps) && Enabled(c, Reached(c, start, steps), step)
    ensures Legal(c, start, steps + [step])
    ensures Reached(c, start, steps + [step]) == Apply(c, Reached(c, start, steps), step)
  {
    assert (steps + [step])[..|steps|] == steps;
  }

  /** A reader misses and reads the old chat; the update invalidates and writes; the reader then
      caches what it read. From then on hits return a chat the origin no longer has, with
      no cache failure and no time passing. */
  function StaleSteps(chat: Chat): seq<Step>
  {
    [Miss(1, ChatKey(chat.id))] + [ReadOrigin(1, false)] + [StartUpdate(2, chat, true)] + [FinishUpdate(2)]
      + [UseCache(1, true, 0)]
  }

  /** The first half: the reader has read, the update has invalidated. */
  lemma OldReadInFlight(c: Config, w: World, chat: Chat) returns (steps: seq<Step>)
    requires Sql.Update(w.t, chat).Ok?
    ensures steps == [Miss(1, ChatKey(chat.id))] + [ReadOrigin(1, false)] + [StartUpdate(2, chat, true)]
    ensures Legal(c, Init(w, 0), steps)
    ensures var key, s := ChatKey(chat.id), Reached(c, Init(w, 0), steps);
            && s.now == 0 && s.history == [Snapshot(0, w)] && s.cache == map[]
            && s.procs == map[1 := Pending([SetOp(key, ChatJson(w.t.chats[chat.id]))], 0)][2 := Updating(chat)]
  {
    var start, key := Init(w, 0), ChatKey(chat.id);
    var s1 := [Miss(1, key)];
    var s2 := s1 + [ReadOrigin(1, false)];
    steps := s2 + [StartUpdate(2, chat, true)];
    assert [] + s1 == s1;
    Then(c, start, [], Miss(1, key));
    Then(c, start, s1, ReadOrigin(1, false));
    assert Reached(c, start, s2).procs == map[1 := Pending([SetOp(key, ChatJson(w.t.chats[chat.id]))], 0)];
    Then(c, start, s2, StartUpdate(2, chat, true));
  }

  lemma StaleAfterUpdate(c: Config, w: World, chat: Chat)
    requires Sane(c) && Sql.Update(w.t, chat).Ok? && Sql.Update(w.t, chat).value != w.t
    ensures Legal(c, Init(w, 0), StaleSteps(chat))
    ensures var s, key := Reached(c, Init(w, 0), StaleSteps(chat)), ChatKey(chat.id);
            && (forall pid :: pid in s.procs ==> s.procs[pid] == Pending([], 0))
            && Hits(s, key) && View(w, key) == Some(s.cache[key].value)
            && View(Origin(s), key) != Some(s.cache[key].value)
  {
    var start := Init(w, 0);
    var s3 := OldReadInFlight(c, w, chat);
    Then(c, start, s3, FinishUpdate(2));
    Then(c, start, s3 + [FinishUpdate(2)], UseCache(1, true, 0));
  }

}
