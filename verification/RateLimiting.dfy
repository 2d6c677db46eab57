/** The per-IP fixed-window limiter: its request path, its background purge, and how many
    requests of one IP it can let through. Times are integers (nanoseconds). */
module RateLimiting {
  import opened Wrappers

  datatype Limits = Limits(maxReqs: int, window: int)

  datatype Entry = Entry(count: int, resetAt: int)

  type Clients = map<string, Entry>

  /** What one request at time `now` does to its IP's entry, and whether it is let through.
      The request that opens a window is let through whatever maxReqs is. */
  function Touch(l: Limits, e: Option<Entry>, now: int): (Entry, bool)
  {
    if e.None? || now > e.value.resetAt then
      (Entry(1, now + l.window), true)
    else
      (Entry(e.value.count + 1, e.value.resetAt), e.value.count + 1 <= l.maxReqs)
  }

  function Lookup(clients: Clients, ip: string): Option<Entry>
  {
    if ip in clients then Some(clients[ip]) else None
  }

  function Purged(clients: Clients, now: int): Clients
  {
    map ip | ip in clients && now <= clients[ip].resetAt :: clients[ip]
  }

  class RateLimiter {
    const limits: Limits
    var clients: Clients

    /** A ticker of ten windows exists only for a positive window. */
    constructor (l: Limits)
      requires l.window > 0
      ensures limits == l && clients == map[]
    {
      limits := l;
      clients := map[];
    }

    /** One request, inside the mutex; the clock is read after locking. */
    method Handle(ip: string, now: int) returns (admitted: bool)
      modifies this
      ensures var (e, ok) := Touch(limits, Lookup(old(clients), ip), now);
              clients == old(clients)[ip := e] && admitted == ok
    {
      if ip !in clients || now > clients[ip].resetAt {
        clients := clients[ip := Entry(1, now + limits.window)];
        return true;
      }
      var e := clients[ip];
      e := e.(count := e.count + 1);
      clients := clients[ip := e];
      admitted := !(e.count > limits.maxReqs);
    }

    /** One tick of the cleanup goroutine; `now` was read before locking. */
    method Purge(now: int)
      modifies this
      ensures clients == Purged(old(clients), now)
    {
      var todo := clients.Keys;
      while todo != {}
        invariant todo <= clients.Keys <= old(clients).Keys
        invariant forall ip :: ip in clients ==> clients[ip] == old(clients)[ip]
        invariant forall ip :: ip in old(clients) && ip !in todo ==>
                    (ip in clients <==> now <= old(clients)[ip].resetAt)
      {
        var ip :| ip in todo;
        if now > clients[ip].resetAt {
          clients := clients - {ip};
        }
        todo := todo - {ip};
      }
    }
  }

  // ---- Histories ----

  datatype Event =
    | Request(ip: string, now: int)
    | Sweep(now: int)

  /** The clock never runs backwards: every request reads a time no earlier than any
      reading already taken. A sweep may hold an old reading when it gets the lock. */
  ghost predicate Monotone(events: seq<Event>)
  {
    forall i, j :: 0 <= i < j < |events| && events[j].Request? ==> events[i].now <= events[j].now
  }

  function After(l: Limits, clients: Clients, ev: Event): Clients
  {
    match ev
    case Request(ip, now) => clients[ip := Touch(l, Lookup(clients, ip), now).0]
    case Sweep(now) => Purged(clients, now)
  }

  /** The answers `ip` gets, in order, over a whole history of everybody's requests and sweeps. */
  function Answers(l: Limits, clients: Clients, events: seq<Event>, ip: string): seq<bool>
    decreases |events|
  {
    if events == [] then [] else
    var rest := Answers(l, After(l, clients, events[0]), events[1..], ip);
    if events[0].Request? && events[0].ip == ip
      then [Touch(l, Lookup(clients, ip), events[0].now).1] + rest
      else rest
  }

  function TimesOf(events: seq<Event>, ip: string): seq<int>
  {
    if events == [] then [] else
    var rest := TimesOf(events[1..], ip);
    if events[0].Request? && events[0].ip == ip then [events[0].now] + rest else rest
  }

  /** The answers of a limiter that serves one IP only and never forgets. */
  function Solo(l: Limits, e: Option<Entry>, times: seq<int>): seq<bool>
    decreases |times|
  {
    if times == [] then [] else
    var (e', ok) := Touch(l, e, times[0]);
    [ok] + Solo(l, Some(e'), times[1..])
  }

  /** The shared entry is the solo entry, or was purged after its window had ended. */
  ghost predicate Forgotten(shared: Option<Entry>, solo: Option<Entry>, events: seq<Event>)
  {
    shared == solo ||
    (shared.None? && solo.Some? &&
     forall i :: 0 <= i < |events| && events[i].Request? ==> solo.value.resetAt < events[i].now)
  }

  lemma {:induction false} AnswersAreSolo(l: Limits, clients: Clients, solo: Option<Entry>, events: seq<Event>,
                                          ip: string)
    requires Monotone(events)
    requires Forgotten(Lookup(clients, ip), solo, events)
    ensures Answers(l, clients, events, ip) == Solo(l, solo, TimesOf(events, ip))
    decreases |events|
  {
    if events != [] {
      var ev, rest := events[0], events[1..];
      var clients' := After(l, clients, ev);
      assert forall i :: 0 <= i < |rest| ==> rest[i] == events[i + 1];
      assert Monotone(rest);
      if ev.Request? && ev.ip == ip {
        var (e, ok) := Touch(l, solo, ev.now);
        assert Touch(l, Lookup(clients, ip), ev.now) == (e, ok);
        AnswersAreSolo(l, clients', Some(e), rest, ip);
        assert TimesOf(events, ip)[1..] == TimesOf(rest, ip);
      } else {
        AnswersAreSolo(l, clients', solo, rest, ip);
      }
    }
  }

  /** Sweeps are invisible and IPs are independent: whatever the others do and whenever the
      sweeps run, an IP is answered as by a limiter of its own that never purges. */
  lemma SweepsAndOthersInvisible(l: Limits, events: seq<Event>, ip: string)
    requires Monotone(events)
    ensures Answers(l, map[], events, ip) == Solo(l, None, TimesOf(events, ip))
  {
    AnswersAreSolo(l, map[], None, events, ip);
  }

  // ---- The rate bound ----

  ghost predicate Sorted(times: seq<int>)
  {
    forall i, j :: 0 <= i < j < |times| ==> times[i] <= times[j]
  }

  /** How many of the answers say yes to a request in [lo, hi]. */
  function CountIn(times: seq<int>, answers: seq<bool>, lo: int, hi: int): nat
    requires |times| == |answers|
  {
    if times == [] then 0 else
    (if answers[0] && lo <= times[0] <= hi then 1 else 0) + CountIn(times[1..], answers[1..], lo, hi)
  }

  function PerWindow(l: Limits): int { if l.maxReqs < 1 then 1 else l.maxReqs }

  /** How many windows can be opened in [x, hi]: each is opened more than a window after the last. */
  function Openings(l: Limits, x: int, hi: int): nat
    requires l.window > 0
    decreases hi - x
  {
    if x > hi then 0 else 1 + Openings(l, x + l.window + 1, hi)
  }

  lemma {:induction false} SoloLength(l: Limits, e: Option<Entry>, times: seq<int>)
    ensures |Solo(l, e, times)| == |times|
    decreases |times|
  {
    if times != [] { SoloLength(l, Some(Touch(l, e, times[0]).0), times[1..]); }
  }

  lemma {:induction false} OpeningsShrink(l: Limits, x: int, y: int, hi: int)
    requires l.window > 0 && x <= y
    ensures Openings(l, y, hi) <= Openings(l, x, hi)
    decreases hi - x
  {
    if x <= hi && y <= hi { OpeningsShrink(l, x + l.window + 1, y + l.window + 1, hi); }
  }

  function Remaining(l: Limits, e: Option<Entry>): nat
  {
    if e.Some? && e.value.count < PerWindow(l) then PerWindow(l) - e.value.count else 0
  }

  function Admitted(l: Limits, e: Option<Entry>, times: seq<int>, lo: int, hi: int): nat
  {
    SoloLength(l, e, times);
    CountIn(times, Solo(l, e, times), lo, hi)
  }

  lemma AdmittedStep(l: Limits, e: Option<Entry>, times: seq<int>, lo: int, hi: int)
    requires times != []
    ensures var (e', ok) := Touch(l, e, times[0]);
            Admitted(l, e, times, lo, hi) ==
            (if ok && lo <= times[0] <= hi then 1 else 0) + Admitted(l, Some(e'), times[1..], lo, hi)
  {
    var (e', ok) := Touch(l, e, times[0]);
    SoloLength(l, e, times);
    assert Solo(l, e, times)[1..] == Solo(l, Some(e'), times[1..]);
  }

  lemma {:induction false} NoneBeyond(l: Limits, e: Option<Entry>, times: seq<int>, lo: int, hi: int)
    requires Sorted(times) && (times != [] ==> times[0] > hi)
    ensures Admitted(l, e, times, lo, hi) == 0
    decreases |times|
  {
    if times != [] {
      AdmittedStep(l, e, times, lo, hi);
      NoneBeyond(l, Some(Touch(l, e, times[0]).0), times[1..], lo, hi);
    }
  }

  /** From a request inside the interval on: what the open window still allows, and a full
      allowance for every window that can still be opened. */
  lemma {:induction false} InsideBound(l: Limits, e: Option<Entry>, times: seq<int>, lo: int, hi: int)
    requires l.window > 0 && Sorted(times) && (times != [] ==> lo <= times[0])
    requires e.Some? ==> e.value.count >= 1
    ensures var x := if e.Some? && e.value.resetAt >= lo then e.value.resetAt + 1 else lo;
            Admitted(l, e, times, lo, hi) <= Remaining(l, e) + PerWindow(l) * Openings(l, x, hi)
    decreases |times|
  {
    if times == [] {
    } else if times[0] > hi {
      NoneBeyond(l, e, times, lo, hi);
    } else {
      var t := times[0];
      var (e', ok) := Touch(l, e, t);
      AdmittedStep(l, e, times, lo, hi);
      InsideBound(l, Some(e'), times[1..], lo, hi);
      var x := if e.Some? && e.value.resetAt >= lo then e.value.resetAt + 1 else lo;
      if e.None? || t > e.value.resetAt {
        OpeningsShrink(l, x, t, hi);
        MulMonotone(PerWindow(l), Openings(l, t, hi), Openings(l, x, hi));
        assert PerWindow(l) * (1 + Openings(l, t + l.window + 1, hi))
            == PerWindow(l) + PerWindow(l) * Openings(l, t + l.window + 1, hi);
      }
    }
  }

  lemma MulMonotone(m: int, a: int, b: int)
    requires m >= 0 && a <= b
    ensures m * a <= m * b
  {
  }

  lemma {:induction false} IntervalBound(l: Limits, e: Option<Entry>, times: seq<int>, lo: int, hi: int)
    requires l.window > 0 && Sorted(times) && lo <= hi
    requires e.Some? ==> e.value.count >= 1
    ensures Admitted(l, e, times, lo, hi) <= PerWindow(l) - 1 + PerWindow(l) * Openings(l, lo, hi)
    decreases |times|
  {
    if times != [] && times[0] < lo {
      AdmittedStep(l, e, times, lo, hi);
      IntervalBound(l, Some(Touch(l, e, times[0]).0), times[1..], lo, hi);
    } else {
      InsideBound(l, e, times, lo, hi);
      var x := if e.Some? && e.value.resetAt >= lo then e.value.resetAt + 1 else lo;
      OpeningsShrink(l, lo, x, hi);
      MulMonotone(PerWindow(l), Openings(l, x, hi), Openings(l, lo, hi));
    }
  }

  lemma {:induction false} OpeningsClosedForm(l: Limits, lo: int, d: nat)
    requires l.window > 0
    ensures Openings(l, lo, lo + d) == d / (l.window + 1) + 1
    decreases d
  {
    var p := l.window + 1;
    if d >= p {
      OpeningsClosedForm(l, lo + p, d - p);
      assert lo + p + (d - p) == lo + d;
      DivStep(d, p);
    } else {
      assert Openings(l, lo + p, lo + d) == 0;
      DivSmall(d, p);
    }
  }

  lemma DivStep(d: int, p: int)
    requires d >= p > 0
    ensures d / p == (d - p) / p + 1
  {
    var q := (d - p) / p;
    assert d - p == p * q + (d - p) % p;
    DivUnique(d, p, q + 1);
  }

  lemma DivUnique(d: int, p: int, q: int)
    requires p > 0 && p * q <= d < p * q + p
    ensures d / p == q
  {
    var k := d / p;
    assert d == p * k + d % p;
    if k < q {
      MulMonotone(p, k + 1, q);
    } else if k > q {
      MulMonotone(p, q + 1, k);
    }
  }

  lemma DivSmall(d: int, p: int)
    requires 0 <= d < p
    ensures d / p == 0
  {
  }

  function CeilDiv(d: int, w: int): int
    requires w > 0
  {
    (d + w - 1) / w
  }

  lemma OpeningsWithinCeil(d: int, w: int)
    requires d > 0 && w > 0
    ensures d / (w + 1) + 1 <= CeilDiv(d, w)
  {
    var q, c := d / (w + 1), CeilDiv(d, w);
    assert q * (w + 1) <= d;
    assert c * w >= d;
    CeilAbove(d, w, q, c);
  }

  lemma CeilAbove(d: int, w: int, q: int, c: int)
    requires d > 0 && w > 0 && q >= 0 && q * (w + 1) <= d <= c * w
    ensures q < c
  {
    assert q * (w + 1) == w * q + q;
    if c <= q { MulMonotone(w, c, q); }
  }

  ghost predicate IsRequestTime(events: seq<Event>, t: int)
  {
    exists i :: 0 <= i < |events| && events[i].Request? && events[i].now == t
  }

  lemma {:induction false} TimesSorted(events: seq<Event>, ip: string)
    requires Monotone(events)
    ensures Sorted(TimesOf(events, ip))
    ensures forall k :: 0 <= k < |TimesOf(events, ip)| ==> IsRequestTime(events, TimesOf(events, ip)[k])
  {
    if events != [] {
      var rest := events[1..];
      assert forall i :: 0 <= i < |rest| ==> rest[i] == events[i + 1];
      TimesSorted(rest, ip);
      var ts := TimesOf(rest, ip);
      forall k | 0 <= k < |ts|
        ensures IsRequestTime(events, ts[k]) && events[0].now <= ts[k]
      {
        assert IsRequestTime(rest, ts[k]);
        var i :| 0 <= i < |rest| && rest[i].Request? && rest[i].now == ts[k];
        assert events[i + 1] == rest[i];
      }
      if events[0].Request? && events[0].ip == ip {
        assert IsRequestTime(events, events[0].now);
        assert TimesOf(events, ip) == [events[0].now] + ts;
      }
    }
  }

  /** How many requests of `ip` a whole history lets through in [lo, hi]. */
  ghost function LetThrough(l: Limits, events: seq<Event>, ip: string, lo: int, hi: int): nat
    requires Monotone(events)
  {
    SweepsAndOthersInvisible(l, events, ip);
    SoloLength(l, None, TimesOf(events, ip));
    CountIn(TimesOf(events, ip), Answers(l, map[], events, ip), lo, hi)
  }

  /** Over every history and every sweep schedule, a closed interval of length d lets through
      at most one short of a full allowance for each window that can be opened in it and one more. */
  lemma RateBound(l: Limits, events: seq<Event>, ip: string, lo: int, d: nat)
    requires l.window > 0 && Monotone(events)
    ensures LetThrough(l, events, ip, lo, lo + d) <= PerWindow(l) * (d / (l.window + 1) + 2) - 1
    ensures d > 0 ==> LetThrough(l, events, ip, lo, lo + d) < PerWindow(l) * (CeilDiv(d, l.window) + 1)
    ensures d == l.window ==> LetThrough(l, events, ip, lo, lo + d) < 2 * PerWindow(l)
  {
    SweepsAndOthersInvisible(l, events, ip);
    TimesSorted(events, ip);
    var times := TimesOf(events, ip);
    IntervalBound(l, None, times, lo, lo + d);
    OpeningsClosedForm(l, lo, d);
    var m, q := PerWindow(l), d / (l.window + 1);
    assert m - 1 + m * (q + 1) == m * (q + 2) - 1;
    if d > 0 {
      OpeningsWithinCeil(d, l.window);
      MulMonotone(m, q + 2, CeilDiv(d, l.window) + 1);
    }
    if d == l.window {
      DivSmall(d, l.window + 1);
      assert m * (0 + 2) == 2 * m;
    }
  }

  // ---- Who must be let through ----

  /** What the window that is open at t has let through already. */
  function Carried(l: Limits, e: Option<Entry>, t: int): int
  {
    if e.None? || t > e.value.resetAt then 0
    else if e.value.count < PerWindow(l) then e.value.count else PerWindow(l)
  }

  lemma CountHead(times: seq<int>, answers: seq<bool>, k: nat, lo: int, hi: int)
    requires 0 < k <= |times| == |answers|
    ensures CountIn(times[..k], answers[..k], lo, hi) ==
              (if answers[0] && lo <= times[0] <= hi then 1 else 0)
              + CountIn(times[1..][..k - 1], answers[1..][..k - 1], lo, hi)
  {
    assert times[..k][1..] == times[1..][..k - 1] && answers[..k][1..] == answers[1..][..k - 1];
  }

  lemma {:induction false} SoloRejects(l: Limits, e: Option<Entry>, times: seq<int>, answers: seq<bool>, k: nat)
    requires l.window > 0 && Sorted(times) && k < |times| && answers == Solo(l, e, times) && |answers| == |times|
    requires !answers[k]
    requires e.Some? ==> e.value.count >= 1 && e.value.resetAt - l.window <= times[0]
    ensures CountIn(times[..k], answers[..k], times[k] - l.window, times[k]) + Carried(l, e, times[k]) >= PerWindow(l)
    decreases |times|
  {
    if k > 0 {
      var (e', ok) := Touch(l, e, times[0]);
      SoloLength(l, Some(e'), times[1..]);
      assert answers[1..] == Solo(l, Some(e'), times[1..]);
      SoloRejects(l, Some(e'), times[1..], answers[1..], k - 1);
      CountHead(times, answers, k, times[k] - l.window, times[k]);
    }
  }

  /** Over every history and every sweep schedule: a request at t is rejected only if a full
      allowance of that IP's earlier requests was let through in [t - window, t]. */
  lemma RejectedOnlyWhenFull(l: Limits, events: seq<Event>, ip: string, k: nat)
    requires l.window > 0 && Monotone(events)
    requires k < |Answers(l, map[], events, ip)| && !Answers(l, map[], events, ip)[k]
    ensures |TimesOf(events, ip)| == |Answers(l, map[], events, ip)|
    ensures var times, answers := TimesOf(events, ip), Answers(l, map[], events, ip);
            CountIn(times[..k], answers[..k], times[k] - l.window, times[k]) >= PerWindow(l)
  {
    SweepsAndOthersInvisible(l, events, ip);
    SoloLength(l, None, TimesOf(events, ip));
    TimesSorted(events, ip);
    SoloRejects(l, None, TimesOf(events, ip), Answers(l, map[], events, ip), k);
  }

  // ---- The bound is reached ----

  function Burst(ip: string, t: int, n: nat): seq<Event>
  {
    if n == 0 then [] else [Request(ip, t)] + Burst(ip, t, n - 1)
  }

  lemma {:induction false} BurstMonotone(ip: string, t: int, n: nat)
    ensures |Burst(ip, t, n)| == n
    ensures forall i :: 0 <= i < n ==> Burst(ip, t, n)[i] == Request(ip, t)
  {
    if n > 0 { BurstMonotone(ip, t, n - 1); }
  }

  lemma {:induction false} BurstAdmitted(l: Limits, e: Entry, ip: string, t: int, n: nat, rest: seq<Event>,
                                         lo: int, hi: int)
    requires lo <= t <= hi && t <= e.resetAt && e.count + n <= l.maxReqs
    ensures Admitted(l, Some(e), TimesOf(Burst(ip, t, n) + rest, ip), lo, hi)
         == n + Admitted(l, Some(e.(count := e.count + n)), TimesOf(rest, ip), lo, hi)
    decreases n
  {
    var events := Burst(ip, t, n) + rest;
    if n == 0 {
      assert events == rest;
    } else {
      var e' := e.(count := e.count + 1);
      assert events[1..] == Burst(ip, t, n - 1) + rest;
      assert TimesOf(events, ip) == [t] + TimesOf(events[1..], ip);
      AdmittedStep(l, Some(e), TimesOf(events, ip), lo, hi);
      BurstAdmitted(l, e', ip, t, n - 1, rest, lo, hi);
    }
  }

  /** One request opens a window at 0; the rest of its allowance comes at the window's last
      instant and a whole fresh allowance right after: all but one of two allowances in [1, 1 + window]. */
  function TightHistory(l: Limits, ip: string): seq<Event>
    requires l.maxReqs >= 1
  {
    [Request(ip, 0)] + (Burst(ip, l.window, l.maxReqs - 1) + Burst(ip, l.window + 1, l.maxReqs))
  }

  lemma TightHistoryMonotone(l: Limits, ip: string)
    requires l.window > 0 && l.maxReqs >= 1
    ensures Monotone(TightHistory(l, ip))
  {
    BurstMonotone(ip, l.window, l.maxReqs - 1);
    BurstMonotone(ip, l.window + 1, l.maxReqs);
  }

  lemma RateBoundReached(l: Limits, ip: string)
    requires l.window > 0 && l.maxReqs >= 1
    ensures Monotone(TightHistory(l, ip))
    ensures LetThrough(l, TightHistory(l, ip), ip, 1, 1 + l.window) == 2 * PerWindow(l) - 1
  {
    TightHistoryMonotone(l, ip);
    var w, m, lo, hi := l.window, l.maxReqs, 1, 1 + l.window;
    var events := TightHistory(l, ip);
    SweepsAndOthersInvisible(l, events, ip);
    var second := Burst(ip, w + 1, m);
    var tail := Burst(ip, w, m - 1) + second;
    assert events[1..] == tail;
    assert TimesOf(events, ip) == [0] + TimesOf(tail, ip);
    AdmittedStep(l, None, TimesOf(events, ip), lo, hi);
    BurstAdmitted(l, Entry(1, w), ip, w, m - 1, second, lo, hi);
    var full := Some(Entry(m, w));
    assert second[1..] == Burst(ip, w + 1, m - 1) + [];
    assert TimesOf(second, ip) == [w + 1] + TimesOf(second[1..], ip);
    AdmittedStep(l, full, TimesOf(second, ip), lo, hi);
    BurstAdmitted(l, Entry(1, w + 1 + w), ip, w + 1, m - 1, [], lo, hi);
  }
}
