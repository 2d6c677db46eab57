/** When does the cache serve nothing old? For every key and every state of the protocol: exactly
    when no unexpired entry, and no Set that is still due and would still outlive the moment,
    says other than the origin. The write-invalidate order alone does not bring that about. */
module Freshness {
  import opened Wrappers
  import opened Domain
  import opened CacheKeys
  import opened Staleness
  import Cached = CachedChats
  import Sql = ChatTables

  // ---- What can make a hit wrong ----

  /** An entry that a hit would return says other than `answer`. */
  predicate Standing(s: State, key: Key, answer: Option<CacheValue>)
  {
    Hits(s, key) && answer != Some(Shown(s.cache[key].value))
  }

  /** The i-th operation due is a Set that says other than `answer` and may yet make an entry
      that has not expired. */
  predicate Late(c: Config, now: int, p: Process, i: int, key: Key, answer: Option<CacheValue>)
  {
    p.Pending? && 0 <= i < |p.ops| && p.ops[i].SetOp? && p.ops[i].key == key &&
    answer != Some(Shown(p.ops[i].value)) && now <= p.at + c.delay + Ttl(c, key)
  }

  ghost predicate InFlight(c: Config, s: State, key: Key, answer: Option<CacheValue>)
  {
    exists pid, i :: pid in s.procs && Late(c, s.now, s.procs[pid], i, key, answer)
  }

  ghost predicate Threat(c: Config, s: State, key: Key, answer: Option<CacheValue>)
  {
    Standing(s, key, answer) || InFlight(c, s, key, answer)
  }

  /** The write goes to the rows behind the key. */
  predicate Rewrites(write: Write, key: Key)
  {
    match write
    case CreateChat(chat, _) => !key.UserKey? && (if key.ChatKey? then key.id else key.chat) == chat.id
    case AddMember(m) => key == MemberKey(m.chat, m.user) || key == IsMemberKey(m.chat, m.user)
    case RemoveMember(chat, user) => key == MemberKey(chat, user) || key == IsMemberKey(chat, user)
    case SetRole(chat, user, _) => key == MemberKey(chat, user)
    case NewUser(p) => key == UserKey(p.id)
    case PutUser(p) => key == UserKey(p.id)
    case DropUser(user) => key == UserKey(user)
  }

  predicate Touches(s: State, step: Step, key: Key)
  {
    match step
    case WriteOrigin(_, write) => Rewrites(write, key)
    case FinishUpdate(pid) => pid in s.procs && s.procs[pid].Updating? && key == ChatKey(s.procs[pid].chat.id)
    case FinishDelete(pid) => pid in s.procs && s.procs[pid].Deleting? && key == ChatKey(s.procs[pid].gone)
    case _ => false
  }

  /** No step of the run writes the rows behind the key. */
  ghost predicate Calm(c: Config, s: State, steps: seq<Step>, key: Key)
    requires Legal(c, s, steps)
    decreases |steps|
  {
    steps == [] ||
    var before := steps[..|steps| - 1];
    Calm(c, s, before, key) && !Touches(Reached(c, s, before), steps[|steps| - 1], key)
  }

  /** Whatever a hit returns now, the origin answers too. */
  predicate Truthful(s: State, key: Key)
  {
    s.history != [] && !Standing(s, key, View(Origin(s), key))
  }

  /** However the run goes on, with any cache operations failing: until the rows behind the key
      are written again, no hit differs from what the origin then answers. */
  ghost predicate Fresh(c: Config, s: State, key: Key)
  {
    forall steps :: Legal(c, s, steps) && Calm(c, s, steps, key) ==> Truthful(Reached(c, s, steps), key)
  }

  // ---- No threat, and none arises ----

  predicate IsWrite(step: Step)
  {
    step.WriteOrigin? || step.FinishUpdate? || step.FinishDelete?
  }

  predicate SameChatId(write: Write)
  {
    write.CreateChat? ==> forall i :: 0 <= i < |write.members| ==> write.members[i].chat == write.created.id
  }

  lemma AnswerStays(c: Config, s: State, step: Step, key: Key)
    requires Enabled(c, s, step) && !Touches(s, step, key)
    ensures Apply(c, s, step).history != []
    ensures View(Origin(Apply(c, s, step)), key) == View(Origin(s), key)
  {
    if step.WriteOrigin? {
      WriteElsewhere(Origin(s), step.write, key);
    } else if IsWrite(step) {
      ChatWriteElsewhere(c, s, step, key);
    }
  }

  lemma ChatWriteElsewhere(c: Config, s: State, step: Step, key: Key)
    requires Enabled(c, s, step) && (step.FinishUpdate? || step.FinishDelete?) && !Touches(s, step, key)
    ensures Apply(c, s, step).history != []
    ensures View(Origin(Apply(c, s, step)), key) == View(Origin(s), key)
  {
  }

  lemma WriteElsewhere(w: World, write: Write, key: Key)
    requires Written(w, write).Some? && SameChatId(write) && !Rewrites(write, key)
    ensures View(Written(w, write).value, key) == View(w, key)
  {
    if write.CreateChat? {
      Sql.InsertMembersAdds(w.t.(chats := w.t.chats[write.created.id := write.created]), write.members);
      var t' := Written(w, write).value.t;
      if key.MemberKey? || key.IsMemberKey? {
        assert (key.chat, key.user) in t'.members ==> (key.chat, key.user) in w.t.members;
      }
    }
  }

  /** Nothing due after a write elsewhere has to do with the key. */
  lemma DueElsewhere(write: Write, key: Key)
    requires !Rewrites(write, key)
    ensures forall i :: 0 <= i < |Due(write)| ==> Due(write)[i].key != key
  {
    if write.CreateChat? { SeedKeys(write.created.id, write.members); }
  }

  lemma {:induction false} SeedKeys(chat: Id, members: seq<ChatMember>)
    ensures forall i :: 0 <= i < |Seeds(chat, members)| ==>
              var key := Seeds(chat, members)[i].key; (key.MemberKey? || key.IsMemberKey?) && key.chat == chat
    decreases |members|
  {
    if members != [] { SeedKeys(chat, members[1..]); }
  }

  /** Of an untouched key, a step makes no due Set that is not the origin's answer. */
  lemma DueStays(c: Config, s: State, step: Step, key: Key, pid: nat, i: int)
    requires Enabled(c, s, step) && !Touches(s, step, key)
    requires var s' := Apply(c, s, step);
             pid in s'.procs && Late(c, s'.now, s'.procs[pid], i, key, View(Origin(s), key))
    ensures InFlight(c, s, key, View(Origin(s), key))
  {
    match step
    case WriteOrigin(q, write) =>
      DueElsewhere(write, key);
      assert Late(c, s.now, s.procs[pid], i, key, View(Origin(s), key));
    case UseCache(q, _, _) =>
      assert Late(c, s.now, s.procs[pid], if q == pid then i + 1 else i, key, View(Origin(s), key));
    case FinishDelete(q) =>
      InvalidationsSound(s, s.procs[q].gone, s.procs[q].users);
      assert Late(c, s.now, s.procs[pid], i, key, View(Origin(s), key));
    case _ =>
      assert Late(c, s.now, s.procs[pid], i, key, View(Origin(s), key));
  }

  lemma EntryStays(c: Config, s: State, step: Step, key: Key)
    requires Enabled(c, s, step) && !Touches(s, step, key)
    requires Standing(Apply(c, s, step), key, View(Origin(s), key))
    ensures Threat(c, s, key, View(Origin(s), key))
  {
    if step.UseCache? && step.ok && s.procs[step.pid].ops[0].key == key {
      assert Late(c, s.now, s.procs[step.pid], 0, key, View(Origin(s), key));
    }
  }

  lemma ThreatStays(c: Config, s: State, step: Step, key: Key)
    requires Enabled(c, s, step) && !Touches(s, step, key)
    ensures var s' := Apply(c, s, step);
            Threat(c, s', key, View(Origin(s), key)) ==> Threat(c, s, key, View(Origin(s), key))
  {
    var s' := Apply(c, s, step);
    if Standing(s', key, View(Origin(s), key)) {
      EntryStays(c, s, step, key);
    } else if InFlight(c, s', key, View(Origin(s), key)) {
      var pid, i :| pid in s'.procs && Late(c, s'.now, s'.procs[pid], i, key, View(Origin(s), key));
      DueStays(c, s, step, key, pid, i);
    }
  }

  lemma {:induction false} NoThreatArises(c: Config, s: State, steps: seq<Step>, key: Key)
    requires s.history != [] && Legal(c, s, steps) && Calm(c, s, steps, key)
    requires !Threat(c, s, key, View(Origin(s), key))
    ensures var s' := Reached(c, s, steps);
            s'.history != [] && !Threat(c, s', key, View(Origin(s'), key))
    decreases |steps|
  {
    if steps != [] {
      var before, last := steps[..|steps| - 1], steps[|steps| - 1];
      NoThreatArises(c, s, before, key);
      AnswerStays(c, Reached(c, s, before), last, key);
      ThreatStays(c, Reached(c, s, before), last, key);
    }
  }

  // ---- A threat comes true ----

  lemma CalmThen(c: Config, s: State, steps: seq<Step>, step: Step, key: Key)
    requires Legal(c, s, steps) && Calm(c, s, steps, key)
    requires Enabled(c, Reached(c, s, steps), step) && !Touches(Reached(c, s, steps), step, key)
    ensures Legal(c, s, steps + [step]) && Calm(c, s, steps + [step], key)
    ensures Reached(c, s, steps + [step]) == Apply(c, Reached(c, s, steps), step)
  {
    Then(c, s, steps, step);
    assert (steps + [step])[..|steps|] == steps;
  }

  /** The process loses its first n cache operations. */
  lemma {:induction false} Lose(c: Config, s: State, pid: nat, n: nat, key: Key) returns (steps: seq<Step>)
    requires s.history != [] && pid in s.procs && s.procs[pid].Pending? && n <= |s.procs[pid].ops|
    ensures Legal(c, s, steps) && Calm(c, s, steps, key)
    ensures var p := s.procs[pid];
            Reached(c, s, steps) == s.(procs := s.procs[pid := Pending(p.ops[n..], p.at)])
    decreases n
  {
    var p := s.procs[pid];
    if n == 0 {
      steps := [];
      assert s.procs[pid := Pending(p.ops, p.at)] == s.procs;
    } else {
      var before := Lose(c, s, pid, n - 1, key);
      CalmThen(c, s, before, UseCache(pid, false, 0), key);
      steps := before + [UseCache(pid, false, 0)];
      assert p.ops[n - 1..][1..] == p.ops[n..];
    }
  }

  /** A late Set that is the next operation, with a clock reading that has been and is in time. */
  lemma NextSetLands(c: Config, s: State, pid: nat, clock: int, key: Key)
    requires Sane(c) && s.history != [] && pid in s.procs
    requires Late(c, s.now, s.procs[pid], 0, key, View(Origin(s), key))
    requires clock == if s.now <= s.procs[pid].at + c.delay then s.now else s.procs[pid].at + c.delay
    ensures Enabled(c, s, UseCache(pid, true, clock)) && !Touches(s, UseCache(pid, true, clock), key)
    ensures !Truthful(Apply(c, s, UseCache(pid, true, clock)), key)
  {
  }

  lemma LateSetLands(c: Config, s: State, pid: nat, i: nat, key: Key)
    requires Sane(c) && s.history != [] && pid in s.procs
    requires Late(c, s.now, s.procs[pid], i, key, View(Origin(s), key))
    ensures !Fresh(c, s, key)
  {
    var p := s.procs[pid];
    var before := Lose(c, s, pid, i, key);
    var clock := if s.now <= p.at + c.delay then s.now else p.at + c.delay;
    NextSetLands(c, Reached(c, s, before), pid, clock, key);
    CalmThen(c, s, before, UseCache(pid, true, clock), key);
    assert !Truthful(Reached(c, s, before + [UseCache(pid, true, clock)]), key);
  }

  /** The cache serves nothing old of a key, however the run goes on until the rows behind it
      are next written, if and only if nothing in it or on the way to it says otherwise. */
  lemma FreshIff(c: Config, s: State, key: Key)
    requires Sane(c) && s.history != []
    ensures Fresh(c, s, key) <==> !Threat(c, s, key, View(Origin(s), key))
  {
    var answer := View(Origin(s), key);
    if Standing(s, key, answer) {
      assert Legal(c, s, []) && Calm(c, s, [], key) && !Truthful(Reached(c, s, []), key);
    } else if InFlight(c, s, key, answer) {
      var pid, i :| pid in s.procs && Late(c, s.now, s.procs[pid], i, key, answer);
      LateSetLands(c, s, pid, i, key);
    } else {
      forall steps | Legal(c, s, steps) && Calm(c, s, steps, key)
        ensures Truthful(Reached(c, s, steps), key)
      {
        NoThreatArises(c, s, steps, key);
      }
    }
  }

  // ---- Right after a write ----

  /** At the instant of any write, with its own cache operations still to come: fresh exactly when
      nothing that stood in the cache or was due before the write says other than it. */
  lemma FreshAtWriteIff(c: Config, s: State, step: Step, key: Key)
    requires Sane(c) && Enabled(c, s, step) && IsWrite(step)
    ensures var s' := Apply(c, s, step);
            s'.history != [] && (Fresh(c, s', key) <==> !Threat(c, s, key, View(Origin(s'), key)))
  {
    var s' := Apply(c, s, step);
    var answer := View(Origin(s'), key);
    FreshIff(c, s', key);
    WriteAddsNoFlight(c, s, step, key);
    assert Standing(s', key, answer) <==> Standing(s, key, answer);
  }

  lemma WriteAddsNoFlight(c: Config, s: State, step: Step, key: Key)
    requires Enabled(c, s, step) && IsWrite(step)
    ensures var s' := Apply(c, s, step);
            && s'.history != [] && s'.now == s.now && s'.cache == s.cache
            && (InFlight(c, s', key, View(Origin(s'), key)) <==> InFlight(c, s, key, View(Origin(s'), key)))
  {
    var s' := Apply(c, s, step);
    var answer := View(Origin(s'), key);
    forall i
      ensures step.pid in s'.procs ==> !Late(c, s'.now, s'.procs[step.pid], i, key, answer)
    {
      OwnSetsAreRight(c, s, step, i, key);
    }
    SameFlight(c, s, s', step.pid, key, answer);
  }

  lemma OwnSetsAreRight(c: Config, s: State, step: Step, i: int, key: Key)
    requires Enabled(c, s, step) && IsWrite(step)
    ensures var s' := Apply(c, s, step);
            s'.history != [] && (step.pid in s'.procs ==>
              !Late(c, s'.now, s'.procs[step.pid], i, key, View(Origin(s'), key)))
  {
    var s' := Apply(c, s, step);
    if step.WriteOrigin? && 0 <= i < |Due(step.write)| {
      DueSays(Origin(s), step.write, Origin(s'));
      assert Says(Origin(s'), Due(step.write)[i]);
    }
    if step.FinishDelete? { InvalidationsSound(s, s.procs[step.pid].gone, s.procs[step.pid].users); }
  }

  // ---- What a write has to set or delete ----

  /** The write changes what the origin answers for the key, and an answer of before, or of before
      that, may be cached: nothing is cached of a chat or user that is not there, but a member
      may have come and gone. */
  predicate Outdates(w: World, write: Write, key: Key)
  {
    var w' := Written(w, write);
    w'.Some? && View(w'.value, key) != View(w, key) && (View(w, key).Some? || key.MemberKey?)
  }

  lemma {:induction false} SeedsCover(chat: Id, members: seq<ChatMember>, i: nat)
    requires i < |members|
    ensures exists j :: 0 <= j < |Seeds(chat, members)| &&
              Seeds(chat, members)[j].key == IsMemberKey(chat, members[i].user)
    ensures exists j :: 0 <= j < |Seeds(chat, members)| &&
              Seeds(chat, members)[j].key == MemberKey(chat, members[i].user)
    decreases |members|
  {
    var all, rest := Seeds(chat, members), Seeds(chat, members[1..]);
    if i == 0 {
      assert all[0].key == IsMemberKey(chat, members[0].user) && all[1].key == MemberKey(chat, members[0].user);
    } else {
      SeedsCover(chat, members[1..], i - 1);
      var j :| 0 <= j < |rest| && rest[j].key == IsMemberKey(chat, members[i].user);
      var k :| 0 <= k < |rest| && rest[k].key == MemberKey(chat, members[i].user);
      assert all[j + 2] == rest[j] && all[k + 2] == rest[k];
    }
  }

  lemma CreationCovers(w: World, write: Write, key: Key)
    requires write.CreateChat? && SameChatId(write) && Outdates(w, write, key)
    ensures Used(write, |Due(write)|, key)
  {
    var t0 := w.t.(chats := w.t.chats[write.created.id := write.created]);
    Sql.InsertMembersAdds(t0, write.members);
    var t' := Written(w, write).value.t;
    assert (key.chat, key.user) in t'.members && (key.chat, key.user) !in w.t.members;
    var i :| 0 <= i < |write.members| && (key.chat, key.user) == (write.members[i].chat, write.members[i].user);
    SeedsCover(write.created.id, write.members, i);
  }

  /** Every write sets or deletes every key that it outdates. */
  lemma DueCovers(w: World, write: Write, key: Key)
    requires SameChatId(write) && Outdates(w, write, key)
    ensures Used(write, |Due(write)|, key)
  {
    var due := Due(write);
    match write
    case CreateChat(_, _) => CreationCovers(w, write, key);
    case AddMember(m) => assert key == due[0].key || key == due[1].key;
    case RemoveMember(_, _) => assert key == due[0].key || key == due[1].key;
    case SetRole(_, _, _) => assert key == due[0].key;
    case PutUser(_) => assert key == due[0].key;
    case DropUser(_) => assert key == due[0].key;
    case NewUser(_) =>
  }

  // ---- After a whole call ----

  /** A call that nothing interrupts and no cache operation of which fails: the write, and its
      first n cache operations. */
  function Call(pid: nat, write: Write, n: nat, clock: int): seq<Step>
  {
    if n == 0 then [WriteOrigin(pid, write)] else Call(pid, write, n - 1, clock) + [UseCache(pid, true, clock)]
  }

  predicate Used(write: Write, n: nat, key: Key)
    requires n <= |Due(write)|
  {
    exists i :: 0 <= i < n && Due(write)[i].key == key
  }

  predicate SameEntry(s: State, s': State, key: Key)
  {
    (key in s'.cache <==> key in s.cache) && (key in s.cache ==> s'.cache[key] == s.cache[key])
  }

  /** The state n operations into the call. Of a key set or deleted by then, it has left no entry
      but the right one; of any other, the one there was. */
  ghost predicate MidCall(s: State, pid: nat, write: Write, n: nat, s': State, key: Key)
    requires s.history != [] && n <= |Due(write)|
  {
    && s'.now == s.now && s'.history != [] && Written(Origin(s), write) == Some(Origin(s'))
    && s'.procs == s.procs[pid := Pending(Due(write)[n..], s.now)]
    && if Used(write, n, key) then !Standing(s', key, View(Origin(s'), key)) else SameEntry(s, s', key)
  }

  lemma CallBegins(c: Config, s: State, pid: nat, write: Write, key: Key)
    requires Enabled(c, s, WriteOrigin(pid, write))
    ensures MidCall(s, pid, write, 0, Apply(c, s, WriteOrigin(pid, write)), key)
  {
    assert Due(write)[0..] == Due(write);
  }

  lemma UsedNext(write: Write, n: nat, key: Key)
    requires n < |Due(write)|
    ensures Used(write, n + 1, key) <==> Used(write, n, key) || Due(write)[n].key == key
  {
  }

  /** What one operation of the call does to the entry of a key. */
  lemma OneOp(c: Config, s1: State, op: CacheOp, clock: int, s': State, key: Key)
    requires s'.cache == Do(c, s1.cache, op, clock) && s'.now == s1.now && s'.history != [] && Says(Origin(s'), op)
    ensures if op.key == key then !Standing(s', key, View(Origin(s'), key)) else SameEntry(s1, s', key)
  {
  }

  lemma CallGoesOn(c: Config, s: State, pid: nat, write: Write, n: nat, s1: State, key: Key)
    requires Sane(c) && s.history != [] && n < |Due(write)| && SameChatId(write) && MidCall(s, pid, write, n, s1, key)
    ensures Enabled(c, s1, UseCache(pid, true, s.now))
    ensures MidCall(s, pid, write, n + 1, Apply(c, s1, UseCache(pid, true, s.now)), key)
  {
    var s', op := Apply(c, s1, UseCache(pid, true, s.now)), Due(write)[n];
    assert Due(write)[n..][1..] == Due(write)[n + 1..];
    assert s'.cache == Do(c, s1.cache, op, s.now);
    DueSays(Origin(s), write, Origin(s'));
    OneOp(c, s1, op, s.now, s', key);
    UsedNext(write, n, key);
  }

  /** The run of the write and its first n cache operations, and the state it leads to. */
  ghost predicate InCall(c: Config, s: State, pid: nat, write: Write, n: nat, steps: seq<Step>, key: Key)
  {
    s.history != [] && n <= |Due(write)| && Legal(c, s, steps) && MidCall(s, pid, write, n, Reached(c, s, steps), key)
  }

  lemma CallStarts(c: Config, s: State, pid: nat, write: Write, key: Key)
    requires Enabled(c, s, WriteOrigin(pid, write))
    ensures InCall(c, s, pid, write, 0, Call(pid, write, 0, s.now), key)
  {
    assert [] + [WriteOrigin(pid, write)] == Call(pid, write, 0, s.now);
    CallBegins(c, s, pid, write, key);
    Then(c, s, [], WriteOrigin(pid, write));
  }

  lemma CallContinues(c: Config, s: State, pid: nat, write: Write, n: nat, before: seq<Step>, key: Key)
    requires Sane(c) && SameChatId(write) && n < |Due(write)| && InCall(c, s, pid, write, n, before, key)
    ensures InCall(c, s, pid, write, n + 1, before + [UseCache(pid, true, s.now)], key)
  {
    CallGoesOn(c, s, pid, write, n, Reached(c, s, before), key);
    Then(c, s, before, UseCache(pid, true, s.now));
  }

  lemma {:induction false} CallRuns(c: Config, s: State, pid: nat, write: Write, n: nat, key: Key)
    requires Sane(c) && Enabled(c, s, WriteOrigin(pid, write)) && n <= |Due(write)|
    ensures InCall(c, s, pid, write, n, Call(pid, write, n, s.now), key)
    decreases n
  {
    if n == 0 {
      CallStarts(c, s, pid, write, key);
    } else {
      CallRuns(c, s, pid, write, n - 1, key);
      CallContinues(c, s, pid, write, n - 1, Call(pid, write, n - 1, s.now), key);
    }
  }

  /** After such a call, fresh of each key that it outdated, or set or deleted for good measure,
      exactly when no Set was due, when it began, that says other than it: a reader that had read
      before the write and was not done. */
  lemma FreshAfterCallIff(c: Config, s: State, pid: nat, write: Write, key: Key)
    requires Sane(c) && Enabled(c, s, WriteOrigin(pid, write))
    requires Outdates(Origin(s), write, key) || Used(write, |Due(write)|, key)
    ensures Legal(c, s, Call(pid, write, |Due(write)|, s.now))
    ensures var s' := Reached(c, s, Call(pid, write, |Due(write)|, s.now));
            && s'.now == s.now && s'.history != [] && Written(Origin(s), write) == Some(Origin(s'))
            && (Fresh(c, s', key) <==> !InFlight(c, s, key, View(Origin(s'), key)))
  {
    if Outdates(Origin(s), write, key) { DueCovers(Origin(s), write, key); }
    CallRuns(c, s, pid, write, |Due(write)|, key);
    var s' := Reached(c, s, Call(pid, write, |Due(write)|, s.now));
    FreshIff(c, s', key);
    SameFlight(c, s, s', pid, key, View(Origin(s'), key));
  }

  lemma CallLeavesNothingOld(s: State, pid: nat, write: Write, s': State, key: Key)
    requires s.history != [] && SameChatId(write) && MidCall(s, pid, write, |Due(write)|, s', key) && Truthful(s, key)
    ensures Truthful(s', key)
  {
    if Outdates(Origin(s), write, key) { DueCovers(Origin(s), write, key); }
  }

  /** With nobody else at work, nothing old is served of any key after the call. */
  lemma NothingOldAfterCall(c: Config, s: State, pid: nat, write: Write, key: Key)
    requires Sane(c) && Enabled(c, s, WriteOrigin(pid, write))
    requires forall p :: p in s.procs ==> s.procs[p].Pending? && s.procs[p].ops == []
    requires Truthful(s, key)
    ensures Legal(c, s, Call(pid, write, |Due(write)|, s.now))
    ensures Fresh(c, Reached(c, s, Call(pid, write, |Due(write)|, s.now)), key)
  {
    CallRuns(c, s, pid, write, |Due(write)|, key);
    var s' := Reached(c, s, Call(pid, write, |Due(write)|, s.now));
    CallLeavesNothingOld(s, pid, write, s', key);
    FreshIff(c, s', key);
    SameFlight(c, s, s', pid, key, View(Origin(s'), key));
  }

  /** Only a process with nothing due differs. */
  lemma SameFlight(c: Config, s: State, s': State, pid: nat, key: Key, answer: Option<CacheValue>)
    requires s'.now == s.now
    requires forall p :: p != pid ==> (p in s.procs <==> p in s'.procs) && (p in s.procs ==> s'.procs[p] == s.procs[p])
    requires pid in s.procs ==> !s.procs[pid].Pending?
    requires pid in s'.procs ==> forall i :: !Late(c, s.now, s'.procs[pid], i, key, answer)
    ensures InFlight(c, s', key, answer) <==> InFlight(c, s, key, answer)
  {
    if InFlight(c, s, key, answer) {
      var p, i :| p in s.procs && Late(c, s.now, s.procs[p], i, key, answer);
      assert p in s'.procs && Late(c, s'.now, s'.procs[p], i, key, answer);
    }
    if InFlight(c, s', key, answer) {
      var p, i :| p in s'.procs && Late(c, s'.now, s'.procs[p], i, key, answer);
      assert p in s.procs && Late(c, s.now, s.procs[p], i, key, answer);
    }
  }

  /** An update that nothing interrupts, its invalidation done: what the order of the two was
      meant to rule out is all that is left. */
  lemma FreshAfterUpdateIff(c: Config, s: State, pid: nat, chat: Chat)
    requires Sane(c) && s.history != [] && pid !in s.procs && Sql.Update(Origin(s).t, chat).Ok?
    ensures var steps := [StartUpdate(pid, chat, true)] + [FinishUpdate(pid)];
            Legal(c, s, steps) &&
            var s', key := Reached(c, s, steps), ChatKey(chat.id);
            && s'.history != [] && Origin(s').t == Sql.Update(Origin(s).t, chat).value
            && (Fresh(c, s', key) <==> !InFlight(c, s, key, View(Origin(s'), key)))
  {
    assert [] + [StartUpdate(pid, chat, true)] == [StartUpdate(pid, chat, true)];
    Then(c, s, [], StartUpdate(pid, chat, true));
    Then(c, s, [StartUpdate(pid, chat, true)], FinishUpdate(pid));
    var s' := Reached(c, s, [StartUpdate(pid, chat, true)] + [FinishUpdate(pid)]);
    FreshIff(c, s', ChatKey(chat.id));
    SameFlight(c, s, s', pid, ChatKey(chat.id), View(Origin(s'), ChatKey(chat.id)));
  }

  /** The three steps of a deletion up to the Del of the chat's own entry. */
  lemma DeleteSteps(c: Config, s: State, pid: nat, gone: Id) returns (s': State)
    requires Sane(c) && s.history != [] && pid !in s.procs
    ensures var s1 := Apply(c, s, StartDelete(pid, gone));
            Enabled(c, s1, FinishDelete(pid)) &&
            var s2 := Apply(c, s1, FinishDelete(pid));
            Enabled(c, s2, UseCache(pid, true, s.now)) && s' == Apply(c, s2, UseCache(pid, true, s.now))
    ensures s'.now == s.now && s'.history != [] && View(Origin(s'), ChatKey(gone)) == None && ChatKey(gone) !in s'.cache
    ensures forall p :: p != pid ==> (p in s.procs <==> p in s'.procs) && (p in s.procs ==> s'.procs[p] == s.procs[p])
    ensures pid in s'.procs ==> forall i :: !Late(c, s.now, s'.procs[pid], i, ChatKey(gone), None)
  {
    var s1 := Apply(c, s, StartDelete(pid, gone));
    var s2 := Apply(c, s1, FinishDelete(pid));
    s' := Apply(c, s2, UseCache(pid, true, s.now));
    var users := s1.procs[pid].users;
    InvalidationsSound(s, gone, users);
    assert s'.procs[pid].ops == Invalidations(gone, users);
  }

  /** A deletion up to the Del of the chat's own entry: nobody is served the deleted chat exactly
      when no reader still has to cache it. */
  lemma FreshAfterDeleteIff(c: Config, s: State, pid: nat, gone: Id)
    requires Sane(c) && s.history != [] && pid !in s.procs
    ensures var steps := [StartDelete(pid, gone)] + [FinishDelete(pid)] + [UseCache(pid, true, s.now)];
            Legal(c, s, steps) &&
            var s', key := Reached(c, s, steps), ChatKey(gone);
            && s'.history != [] && View(Origin(s'), key) == None
            && (Fresh(c, s', key) <==> !InFlight(c, s, key, None))
  {
    var s1 := [StartDelete(pid, gone)];
    var s2 := s1 + [FinishDelete(pid)];
    var s' := DeleteSteps(c, s, pid, gone);
    assert [] + s1 == s1;
    Then(c, s, [], StartDelete(pid, gone));
    Then(c, s, s1, FinishDelete(pid));
    Then(c, s, s2, UseCache(pid, true, s.now));
    FreshIff(c, s', ChatKey(gone));
    SameFlight(c, s, s', pid, ChatKey(gone), None);
  }

  lemma {:induction false} InvalidationsCover(chat: Id, users: seq<Id>, i: nat)
    requires i < |users|
    ensures DelOp(IsMemberKey(chat, users[i])) in Invalidations(chat, users)
    ensures DelOp(MemberKey(chat, users[i])) in Invalidations(chat, users)
    decreases |users|
  {
    if i == 0 {
      assert Invalidations(chat, users)[0] == DelOp(IsMemberKey(chat, users[0]));
      assert Invalidations(chat, users)[1] == DelOp(MemberKey(chat, users[0]));
    } else {
      InvalidationsCover(chat, users[1..], i - 1);
      assert users[1..][i - 1] == users[i];
    }
  }

  /** A deletion goes on to drop what is cached of every member there was when it began. */
  lemma DeleteDropsMembers(c: Config, s: State, pid: nat, gone: Id, i: nat)
    requires s.history != [] && pid !in s.procs && i < |Sql.GetMembers(Origin(s).t, gone)|
    ensures var s1, user := Apply(c, s, StartDelete(pid, gone)), Sql.GetMembers(Origin(s).t, gone)[i].user;
            Enabled(c, s1, FinishDelete(pid)) &&
            var p := Apply(c, s1, FinishDelete(pid)).procs[pid];
            && p.Pending? && DelOp(ChatKey(gone)) in p.ops
            && DelOp(IsMemberKey(gone, user)) in p.ops && DelOp(MemberKey(gone, user)) in p.ops
  {
    var s1 := Apply(c, s, StartDelete(pid, gone));
    InvalidationsCover(gone, s1.procs[pid].users, i);
  }

  // ---- It happens: for every write that changes what a reader read ----

  lemma {:induction false} Append(c: Config, start: State, steps: seq<Step>, more: seq<Step>)
    requires Legal(c, start, steps) && Legal(c, Reached(c, start, steps), more)
    ensures Legal(c, start, steps + more)
    ensures Reached(c, start, steps + more) == Reached(c, Reached(c, start, steps), more)
    decreases |more|
  {
    if more == [] {
      assert steps + more == steps;
    } else {
      var front := more[..|more| - 1];
      Append(c, start, steps, front);
      assert (steps + more)[..|steps + more| - 1] == steps + front;
      assert (steps + more)[|steps + more| - 1] == more[|more| - 1];
    }
  }

  /** A reader reads before the write and caches after the whole call. */
  function PutBack(key: Key, write: Write): seq<Step>
  {
    [Miss(1, key)] + [ReadOrigin(1, false)] + Call(2, write, |Due(write)|, 0) + [UseCache(1, true, 0)]
  }

  lemma OldReadBefore(c: Config, w: World, key: Key)
    requires View(w, key).Some?
    ensures var steps := [Miss(1, key)] + [ReadOrigin(1, false)];
            Legal(c, Init(w, 0), steps) &&
            Reached(c, Init(w, 0), steps) == Init(w, 0).(procs :=
              map[1 := Pending([SetOp(key, Found(key, View(w, key).value, false))], 0)])
  {
    assert [] + [Miss(1, key)] == [Miss(1, key)];
    Then(c, Init(w, 0), [], Miss(1, key));
    Then(c, Init(w, 0), [Miss(1, key)], ReadOrigin(1, false));
    assert map[1 := Missed(key)][1 := Pending([SetOp(key, Found(key, View(w, key).value, false))], 0)] ==
      map[1 := Pending([SetOp(key, Found(key, View(w, key).value, false))], 0)];
  }

  /** For every write and every key whose answer it changes, without a failure and without time
      passing: when all calls are done, hits return what the origin answered before. */
  lemma ReaderPutsBack(c: Config, w: World, write: Write, key: Key)
    requires Sane(c) && Enabled(c, Init(w, 0), WriteOrigin(2, write))
    requires View(w, key).Some? && View(Written(w, write).value, key) != View(w, key)
    ensures Legal(c, Init(w, 0), PutBack(key, write))
    ensures var s := Reached(c, Init(w, 0), PutBack(key, write));
            && s.now == 0 && (forall pid :: pid in s.procs ==> s.procs[pid] == Pending([], 0))
            && s.history != [] && Origin(s) == Written(w, write).value
            && Hits(s, key) && View(w, key) == Some(Shown(s.cache[key].value)) && !Truthful(s, key)
  {
    var before := [Miss(1, key)] + [ReadOrigin(1, false)] + Call(2, write, |Due(write)|, 0);
    var s1 := ReaderThenCall(c, w, write, key);
    LastSetLands(c, w, write, key, s1, Reached(c, Init(w, 0), before));
    Then(c, Init(w, 0), before, UseCache(1, true, 0));
  }

  /** The run up to the reader's Set. */
  lemma ReaderThenCall(c: Config, w: World, write: Write, key: Key) returns (s1: State)
    requires Sane(c) && Enabled(c, Init(w, 0), WriteOrigin(2, write)) && View(w, key).Some?
    ensures s1 == Init(w, 0).(procs := map[1 := Pending([SetOp(key, Found(key, View(w, key).value, false))], 0)])
    ensures var steps := [Miss(1, key)] + [ReadOrigin(1, false)] + Call(2, write, |Due(write)|, 0);
            Legal(c, Init(w, 0), steps) && MidCall(s1, 2, write, |Due(write)|, Reached(c, Init(w, 0), steps), key)
  {
    OldReadBefore(c, w, key);
    s1 := Reached(c, Init(w, 0), [Miss(1, key)] + [ReadOrigin(1, false)]);
    CallRuns(c, s1, 2, write, |Due(write)|, key);
    Append(c, Init(w, 0), [Miss(1, key)] + [ReadOrigin(1, false)], Call(2, write, |Due(write)|, 0));
  }

  lemma LastSetLands(c: Config, w: World, write: Write, key: Key, s1: State, s2: State)
    requires Sane(c) && View(w, key).Some?
    requires s1 == Init(w, 0).(procs := map[1 := Pending([SetOp(key, Found(key, View(w, key).value, false))], 0)])
    requires MidCall(s1, 2, write, |Due(write)|, s2, key) && View(Origin(s2), key) != View(w, key)
    ensures Enabled(c, s2, UseCache(1, true, 0))
    ensures var s := Apply(c, s2, UseCache(1, true, 0));
            && s.now == 0 && (forall pid :: pid in s.procs ==> s.procs[pid] == Pending([], 0))
            && s.history == s2.history
            && Hits(s, key) && View(w, key) == Some(Shown(s.cache[key].value)) && !Truthful(s, key)
  {
    assert Due(write)[|Due(write)|..] == [];
  }

  /** So a removed member can be taken for a member until the entry expires. */
  lemma RemovedMemberTakenForMember(c: Config, w: World, chat: Id, user: Id)
    requires Sane(c) && Sql.IsMember(w.t, chat, user)
    ensures var key, write := IsMemberKey(chat, user), RemoveMember(chat, user);
            Legal(c, Init(w, 0), PutBack(key, write)) &&
            var s := Reached(c, Init(w, 0), PutBack(key, write));
            && s.history != [] && !Sql.IsMember(Origin(s).t, chat, user)
            && Hits(s, key) && s.cache[key].value == Flag("1")
  {
    ReaderPutsBack(c, w, RemoveMember(chat, user), IsMemberKey(chat, user));
  }

  // ---- The same truth as in sequence ----

  /** For chats, members and flags, to say what the origin answers is what the caching repository,
      called in sequence, calls true; only a member's joined user is not looked at. */
  lemma SaysIsTrue(w: World, key: Key, value: CacheValue)
    requires !key.UserKey? && (value.Flag? ==> value.raw == "0" || value.raw == "1")
    ensures View(w, key) == Some(Shown(value)) <==> Cached.True(w.t, key, value)
  {
  }

  /** For users, it is to be a live user's row as JSON shows it. */
  lemma SaysIsProfile(w: World, id: Id, value: CacheValue)
    ensures View(w, UserKey(id)) == Some(Shown(value)) <==>
              value.UserJson? && id in w.profiles && value.user == w.profiles[id]
  {
  }
}
