/** The per-requester sliding-window limiter for free jobs (`RateLimiter` in `antiabuse.rs`).

    The limiter keeps, for at most `capacity` identities, only the attempts still inside the
    window, and forgets whole identities first-in first-out. The reference it is compared with
    keeps every accepted attempt of every identity for ever and counts. */
module RateLimit {
  import opened Identity
  import opened Sequences

  datatype Config = Config(maxPerWindow: nat, window: nat, capacity: nat) {
    predicate Valid() { window >= 1 && capacity >= 1 }
  }

  /** The mutable part: recent accepted attempts per tracked identity, and arrival order. */
  datatype Tracked = Tracked(hits: map<NodeId, seq<nat>>, order: seq<NodeId>)

  datatype Call = Call(id: NodeId, now: nat)

  const FRESH := Tracked(map[], [])

  // ------------------------------------------------------------ one call

  /** Seconds since `earlier`, saturating at zero for a clock that went backwards. */
  function Age(now: nat, earlier: nat): nat { if now < earlier then 0 else now - earlier }

  function Expire(q: seq<nat>, now: nat, window: nat): seq<nat> {
    if q == [] || Age(now, q[0]) < window then q else Expire(q[1..], now, window)
  }

  function Evict(s: Tracked, capacity: nat): Tracked
    requires capacity >= 1
    decreases |s.order|
  {
    if |s.order| < capacity then s
    else Evict(Tracked(s.hits - {s.order[0]}, s.order[1..]), capacity)
  }

  function Track(c: Config, s: Tracked, id: NodeId): (t: Tracked)
    requires c.Valid()
    ensures id in t.hits
  {
    if id in s.hits then s
    else
      var room := Evict(s, c.capacity);
      Tracked(room.hits[id := []], room.order + [id])
  }

  predicate Allowed(c: Config, s: Tracked, call: Call)
    requires c.Valid()
  {
    |Expire(Track(c, s, call.id).hits[call.id], call.now, c.window)| < c.maxPerWindow
  }

  function Step(c: Config, s: Tracked, call: Call): Tracked
    requires c.Valid()
  {
    var t := Track(c, s, call.id);
    var q := Expire(t.hits[call.id], call.now, c.window);
    t.(hits := t.hits[call.id := if |q| < c.maxPerWindow then q + [call.now] else q])
  }

  class RateLimiter {
    const config: Config
    var hits: map<NodeId, seq<nat>>
    var order: seq<NodeId>

    ghost function State(): Tracked
      reads this
    {
      Tracked(hits, order)
    }

    constructor (maxPerWindow: nat, windowSecs: nat, capacity: nat)
      ensures config.Valid() && config.maxPerWindow == maxPerWindow
      ensures config.window == if windowSecs == 0 then 1 else windowSecs
      ensures config.capacity == if capacity == 0 then 1 else capacity
      ensures State() == FRESH
    {
      config := Config(maxPerWindow, if windowSecs < 1 then 1 else windowSecs, if capacity < 1 then 1 else capacity);
      hits, order := map[], [];
    }

    /** Evict, expire, count, record. */
    method CheckAndRecord(id: NodeId, now: nat) returns (allowed: bool)
      requires config.Valid()
      modifies this
      ensures State() == Step(config, old(State()), Call(id, now))
      ensures allowed == Allowed(config, old(State()), Call(id, now))
    {
      if id !in hits {
        while |order| >= config.capacity
          invariant Evict(State(), config.capacity) == Evict(old(State()), config.capacity)
          decreases |order|
        {
          var oldest := order[0];
          order := order[1..];
          hits := hits - {oldest};
        }
        hits := hits[id := []];
        order := order + [id];
      }
      var q := hits[id];
      while q != [] && Age(now, q[0]) >= config.window
        invariant Expire(q, now, config.window) == Expire(hits[id], now, config.window)
        decreases |q|
      {
        q := q[1..];
      }
      allowed := |q| < config.maxPerWindow;
      if allowed { q := q + [now]; }
      hits := hits[id := q];
    }
  }

  // ------------------------------------------------------------ histories

  ghost predicate Monotone(calls: seq<Call>) {
    forall i, j :: 0 <= i <= j < |calls| ==> calls[i].now <= calls[j].now
  }

  function After(c: Config, calls: seq<Call>): Tracked
    requires c.Valid()
  {
    if calls == [] then FRESH else Step(c, After(c, calls[..|calls| - 1]), calls[|calls| - 1])
  }

  /** The limiter's answer to the last call of a history. */
  predicate Answer(c: Config, calls: seq<Call>)
    requires c.Valid() && calls != []
  {
    Allowed(c, After(c, calls[..|calls| - 1]), calls[|calls| - 1])
  }

  /** Every attempt of `id` the limiter ever accepted. */
  function AcceptedLog(c: Config, calls: seq<Call>, id: NodeId): seq<nat>
    requires c.Valid()
  {
    if calls == [] then []
    else
      var last := calls[|calls| - 1];
      var log := AcceptedLog(c, calls[..|calls| - 1], id);
      if last.id == id && Answer(c, calls) then log + [last.now] else log
  }

  /** The accepted attempts of `id` since it was last put under track. */
  function CurrentLog(c: Config, calls: seq<Call>, id: NodeId): seq<nat>
    requires c.Valid()
  {
    if calls == [] || id !in After(c, calls).hits then []
    else
      var last := calls[|calls| - 1];
      var log := CurrentLog(c, calls[..|calls| - 1], id);
      if last.id == id && Answer(c, calls) then log + [last.now] else log
  }

  /** How many entries of a log are still inside the window at `now`. */
  function Recent(log: seq<nat>, now: nat, window: nat): nat {
    |set i | 0 <= i < |log| && now < log[i] + window|
  }

  lemma RecentGrows(log: seq<nat>, now: nat, window: nat)
    requires log != []
    ensures Recent(log, now, window)
         == Recent(log[..|log| - 1], now, window) + if now < log[|log| - 1] + window then 1 else 0
  {
    var n := |log| - 1;
    var front := set i | 0 <= i < n && now < log[..n][i] + window;
    var all := set i | 0 <= i < |log| && now < log[i] + window;
    assert all == if now < log[n] + window then front + {n} else front;
  }

  /** The reference: remembers everything, and allows an attempt when fewer than the maximum
      of its own accepted attempts lie in the trailing window. */
  function NaiveLog(c: Config, calls: seq<Call>, id: NodeId): seq<nat> {
    if calls == [] then []
    else
      var last := calls[|calls| - 1];
      var log := NaiveLog(c, calls[..|calls| - 1], id);
      if last.id == id && Recent(log, last.now, c.window) < c.maxPerWindow then log + [last.now] else log
  }

  predicate NaiveAnswer(c: Config, calls: seq<Call>)
    requires calls != []
  {
    var last := calls[|calls| - 1];
    Recent(NaiveLog(c, calls[..|calls| - 1], last.id), last.now, c.window) < c.maxPerWindow
  }

  // ------------------------------------------------------------ what a call keeps

  /** The arrival order lists the tracked identities once each, and they fit. */
  ghost predicate Bounded(c: Config, s: Tracked) {
    && NoDuplicates(s.order)
    && |s.order| <= c.capacity
    && (forall id :: id in s.hits <==> id in s.order)
  }

  /** Making room drops exactly the oldest identity of a full limiter, and nothing otherwise. */
  lemma EvictsOldest(c: Config, s: Tracked)
    requires c.Valid() && Bounded(c, s)
    ensures |s.order| < c.capacity ==> Evict(s, c.capacity) == s
    ensures |s.order| == c.capacity
      ==> Evict(s, c.capacity) == Tracked(s.hits - {s.order[0]}, s.order[1..])
  {}

  function Known(s: Tracked, id: NodeId): seq<nat> { if id in s.hits then s.hits[id] else [] }

  /** A call rewrites its caller's queue, may drop the oldest identity, and leaves the rest alone. */
  lemma StepEffect(c: Config, s: Tracked, call: Call)
    requires c.Valid() && Bounded(c, s)
    ensures
      var t, q := Step(c, s, call), Expire(Known(s, call.id), call.now, c.window);
      && Allowed(c, s, call) == (|q| < c.maxPerWindow)
      && call.id in t.hits && t.hits[call.id] == (if |q| < c.maxPerWindow then q + [call.now] else q)
      && (forall id | id in t.hits && id != call.id :: id in s.hits && t.hits[id] == s.hits[id])
      && (call.id in s.hits ==> t.order == s.order && t.hits.Keys == s.hits.Keys)
      && (call.id !in s.hits && |s.order| < c.capacity ==>
            t.order == s.order + [call.id] && t.hits.Keys == s.hits.Keys + {call.id})
      && (call.id !in s.hits && |s.order| == c.capacity
          ==> t.order == s.order[1..] + [call.id] && t.hits.Keys == s.hits.Keys - {s.order[0]} + {call.id})
  {
    hide Expire;
    EvictsOldest(c, s);
  }

  /** Whatever the clock did, a call forgets exactly the leading hits that lie `window` seconds back or more. */
  lemma {:induction false} ExpireIsExact(q: seq<nat>, now: nat, window: nat)
    requires window >= 1
    ensures
      var e := Expire(q, now, window);
      && |e| <= |q| && e == q[|q| - |e|..]
      && (forall i | 0 <= i < |q| - |e| :: q[i] + window <= now)
      && (e != [] ==> now < e[0] + window)
  {
    if q != [] && Age(now, q[0]) >= window {
      ExpireIsExact(q[1..], now, window);
      var e := Expire(q, now, window);
      assert forall i | 0 < i < |q| - |e| :: q[i] == q[1..][i - 1];
    }
  }

  lemma StepKeepsBounded(c: Config, s: Tracked, call: Call)
    requires c.Valid() && Bounded(c, s)
    ensures Bounded(c, Step(c, s, call))
  {
    StepEffect(c, s, call);
    hide Step;
    if call.id !in s.hits && |s.order| == c.capacity {
      assert forall id :: id in s.order[1..] <==> id in s.order && id != s.order[0];
    }
  }

  /** However many identities call, the limiter never tracks more than `capacity`. */
  lemma {:induction false} AlwaysBounded(c: Config, calls: seq<Call>)
    requires c.Valid()
    ensures Bounded(c, After(c, calls))
  {
    if calls != [] {
      AlwaysBounded(c, calls[..|calls| - 1]);
      StepKeepsBounded(c, After(c, calls[..|calls| - 1]), calls[|calls| - 1]);
    }
  }

  // ------------------------------------------------------------ queue against log

  ghost predicate Sorted(s: seq<nat>) {
    forall i, j :: 0 <= i < j < |s| ==> s[i] <= s[j]
  }

  ghost predicate Past(log: seq<nat>, now: nat) {
    forall i :: 0 <= i < |log| ==> log[i] <= now
  }

  /** `q` is what is left of `log` once a prefix that had expired by `now` is dropped. */
  ghost predicate Tail(q: seq<nat>, log: seq<nat>, now: nat, window: nat) {
    && |q| <= |log|
    && q == log[|log| - |q|..]
    && (forall i :: 0 <= i < |log| - |q| ==> Age(now, log[i]) >= window)
  }

  lemma {:induction false} ExpireKeepsTail(q: seq<nat>, log: seq<nat>, now: nat, window: nat)
    requires Tail(q, log, now, window)
    ensures Tail(Expire(q, now, window), log, now, window)
    decreases |q|
  {
    if q != [] && Age(now, q[0]) >= window {
      assert q[0] == log[|log| - |q|];
      ExpireKeepsTail(q[1..], log, now, window);
    }
  }

  lemma {:induction false} ExpireStops(q: seq<nat>, now: nat, window: nat)
    ensures var e := Expire(q, now, window); e != [] ==> Age(now, e[0]) < window
  {
    if q != [] && Age(now, q[0]) >= window { ExpireStops(q[1..], now, window); }
  }

  lemma RecentOfNothing(now: nat, window: nat)
    ensures Recent([], now, window) == 0
  {}

  lemma {:induction false} RecentIsTail(q: seq<nat>, log: seq<nat>, now: nat, window: nat)
    requires Tail(q, log, now, window) && Sorted(log) && window >= 1
    requires q != [] ==> Age(now, q[0]) < window
    ensures Recent(log, now, window) == |q|
    decreases |log|
  {
    hide Recent;
    if log == [] {
      RecentOfNothing(now, window);
    } else {
      var n := |log| - 1;
      RecentGrows(log, now, window);
      if q == [] {
        RecentIsTail([], log[..n], now, window);
      } else {
        assert q[|q| - 1] == log[n] && q[0] == log[|log| - |q|];
        assert Age(now, log[n]) <= Age(now, q[0]);
        RecentIsTail(q[..|q| - 1], log[..n], now, window);
      }
    }
  }

  lemma TailGrows(q: seq<nat>, log: seq<nat>, now: nat, window: nat)
    requires Tail(q, log, now, window) && Sorted(log) && Past(log, now)
    ensures Tail(q + [now], log + [now], now, window) && Sorted(log + [now])
  {}

  /** What is known of one identity's queue, given its log, at `now`. */
  ghost predicate Mirror(s: Tracked, log: seq<nat>, id: NodeId, now: nat, window: nat) {
    && Sorted(log) && Past(log, now)
    && (if id in s.hits then Tail(s.hits[id], log, now, window) else log == [])
  }

  ghost predicate Mirrors(c: Config, calls: seq<Call>, id: NodeId, now: nat)
    requires c.Valid()
  {
    Mirror(After(c, calls), CurrentLog(c, calls, id), id, now, c.window)
  }

  lemma LaterStillMirrors(s: Tracked, log: seq<nat>, id: NodeId, now: nat, later: nat, window: nat)
    requires Mirror(s, log, id, now, window) && now <= later
    ensures Mirror(s, log, id, later, window)
  {}

  lemma OwnCallMirrors(c: Config, s: Tracked, call: Call, log: seq<nat>)
    requires c.Valid() && Bounded(c, s) && Mirror(s, log, call.id, call.now, c.window)
    ensures Mirror(Step(c, s, call), if Allowed(c, s, call) then log + [call.now] else log, call.id, call.now, c.window)
  {
    StepEffect(c, s, call);
    hide Step, Allowed, Expire, Bounded;
    var q := Expire(Known(s, call.id), call.now, c.window);
    ExpireKeepsTail(Known(s, call.id), log, call.now, c.window);
    TailGrows(q, log, call.now, c.window);
    hide Tail, Sorted, Past;
  }

  lemma OtherCallMirrors(c: Config, s: Tracked, call: Call, log: seq<nat>, id: NodeId)
    requires c.Valid() && Bounded(c, s) && Mirror(s, log, id, call.now, c.window) && id != call.id
    ensures Mirror(Step(c, s, call), if id in Step(c, s, call).hits then log else [], id, call.now, c.window)
  {
    StepEffect(c, s, call);
    hide Step, Allowed, Expire, Bounded, Tail;
  }

  /** The limiter's queue of an identity under track is its accepted log minus expired entries. */
  lemma {:induction false} QueueMirrorsLog(c: Config, calls: seq<Call>, id: NodeId)
    requires c.Valid() && Monotone(calls)
    ensures Mirrors(c, calls, id, if calls == [] then 0 else calls[|calls| - 1].now)
  {
    hide Step, Allowed, Mirror, Bounded;
    if calls == [] {
      NothingMirrors(c, id);
    } else {
      var front, last := calls[..|calls| - 1], calls[|calls| - 1];
      QueueMirrorsLog(c, front, id);
      var before := if front == [] then 0 else front[|front| - 1].now;
      LaterStillMirrors(After(c, front), CurrentLog(c, front, id), id, before, last.now, c.window);
      StepMirrors(c, calls, id);
    }
  }

  lemma NothingMirrors(c: Config, id: NodeId)
    requires c.Valid()
    ensures Mirrors(c, [], id, 0)
  {}

  lemma StepMirrors(c: Config, calls: seq<Call>, id: NodeId)
    requires c.Valid() && calls != []
    requires Mirrors(c, calls[..|calls| - 1], id, calls[|calls| - 1].now)
    ensures Mirrors(c, calls, id, calls[|calls| - 1].now)
  {
    hide Step, Allowed, Mirror, Bounded;
    var front, last := calls[..|calls| - 1], calls[|calls| - 1];
    var s, log := After(c, front), CurrentLog(c, front, id);
    AlwaysBounded(c, front);
    if last.id == id {
      OwnCallMirrors(c, s, last, log);
      CallerIsTracked(c, s, last);
    } else {
      OtherCallMirrors(c, s, last, log, id);
    }
  }

  lemma CallerIsTracked(c: Config, s: Tracked, call: Call)
    requires c.Valid()
    ensures call.id in Step(c, s, call).hits
  {}

  /** Each answer is the naive count over the attempts accepted since the caller was last
      put under track. */
  lemma AnswersByCurrentLog(c: Config, calls: seq<Call>)
    requires c.Valid() && Monotone(calls) && calls != []
    ensures
      var last := calls[|calls| - 1];
      Answer(c, calls)
      == (Recent(CurrentLog(c, calls[..|calls| - 1], last.id), last.now, c.window) < c.maxPerWindow)
  {
    hide Step, Expire, Recent;
    var front, last := calls[..|calls| - 1], calls[|calls| - 1];
    var s, log := After(c, front), CurrentLog(c, front, last.id);
    QueueMirrorsLog(c, front, last.id);
    LaterStillMirrors(s, log, last.id, if front == [] then 0 else front[|front| - 1].now, last.now, c.window);
    AlwaysBounded(c, front);
    StepEffect(c, s, last);
    var q := Known(s, last.id);
    ExpireKeepsTail(q, log, last.now, c.window);
    ExpireStops(q, last.now, c.window);
    RecentIsTail(Expire(q, last.now, c.window), log, last.now, c.window);
  }

  lemma {:induction false} CurrentIsSuffix(c: Config, calls: seq<Call>, id: NodeId)
    requires c.Valid()
    ensures var current, all := CurrentLog(c, calls, id), AcceptedLog(c, calls, id);
            |current| <= |all| && current == all[|all| - |current|..]
  {
    if calls != [] {
      hide Answer;
      CurrentIsSuffix(c, calls[..|calls| - 1], id);
    }
  }

  /** Whoever has had no attempt accepted in the last `window` seconds is allowed, evicted meanwhile or not. */
  lemma IdleCallerIsAllowed(c: Config, calls: seq<Call>)
    requires c.Valid() && Monotone(calls) && calls != [] && c.maxPerWindow >= 1
    requires var last := calls[|calls| - 1];
             var log := AcceptedLog(c, calls[..|calls| - 1], last.id);
             forall i | 0 <= i < |log| :: log[i] + c.window <= last.now
    ensures Answer(c, calls)
  {
    hide Answer, CurrentLog, AcceptedLog;
    var front, last := calls[..|calls| - 1], calls[|calls| - 1];
    var log := CurrentLog(c, front, last.id);
    AnswersByCurrentLog(c, calls);
    CurrentIsSuffix(c, front, last.id);
    var all := AcceptedLog(c, front, last.id);
    assert forall i :: 0 <= i < |log| ==> log[i] == all[|all| - |log| + i];
    assert (set i | 0 <= i < |log| && last.now < log[i] + c.window) == {};
  }

  // ------------------------------------------------------------ identities that are never evicted

  /** Once seen, `id` stays under track for the rest of the history. */
  ghost predicate NeverEvicted(c: Config, calls: seq<Call>, id: NodeId)
    requires c.Valid()
  {
    forall i, k :: 0 <= i < k <= |calls| && calls[i].id == id ==> id in After(c, calls[..k]).hits
  }

  ghost predicate Seen(calls: seq<Call>, id: NodeId) { exists i :: 0 <= i < |calls| && calls[i].id == id }

  /** For an identity that was never evicted the limiter, the reference and their answers coincide. */
  lemma {:induction false} AgreesWithNaive(c: Config, calls: seq<Call>, id: NodeId)
    requires c.Valid() && Monotone(calls) && NeverEvicted(c, calls, id)
    ensures CurrentLog(c, calls, id) == AcceptedLog(c, calls, id) == NaiveLog(c, calls, id)
    ensures !Seen(calls, id) ==> NaiveLog(c, calls, id) == []
    ensures calls != [] && calls[|calls| - 1].id == id ==> Answer(c, calls) == NaiveAnswer(c, calls)
  {
    if calls != [] {
      var n := |calls| - 1;
      var front, last := calls[..n], calls[n];
      assert forall k :: 0 <= k <= n ==> front[..k] == calls[..k];
      AgreesWithNaive(c, front, id);
      assert calls[..|calls|] == calls;
      if last.id == id { AnswersByCurrentLog(c, calls); }
      if Seen(calls, id) {
        var i :| 0 <= i < |calls| && calls[i].id == id;
        assert id in After(c, calls[..|calls|]).hits;
      } else {
        assert !Seen(front, id);
      }
    }
  }

  /** Entries of a log inside `[start, start + window)`. */
  function InWindow(log: seq<nat>, start: nat, window: nat): nat {
    |set i | 0 <= i < |log| && start <= log[i] < start + window|
  }

  lemma WindowIsRecent(log: seq<nat>, start: nat, now: nat, window: nat)
    requires start <= now < start + window
    requires Past(log, now)
    ensures InWindow(log, start, window) <= Recent(log, now, window)
  {
    SubsetSize(set i | 0 <= i < |log| && start <= log[i] < start + window,
               set i | 0 <= i < |log| && now < log[i] + window);
  }

  lemma WindowGrows(log: seq<nat>, t: nat, start: nat, window: nat)
    ensures InWindow(log + [t], start, window)
         == InWindow(log, start, window) + if start <= t < start + window then 1 else 0
  {
    var before := set i | 0 <= i < |log| && start <= log[i] < start + window;
    var all := set i | 0 <= i < |log| + 1 && start <= (log + [t])[i] < start + window;
    assert all == if start <= t < start + window then before + {|log|} else before;
  }

  lemma {:induction false} NaiveLogIsPast(c: Config, calls: seq<Call>, id: NodeId, now: nat)
    requires forall i :: 0 <= i < |calls| ==> calls[i].now <= now
    ensures Past(NaiveLog(c, calls, id), now)
  {
    if calls != [] { NaiveLogIsPast(c, calls[..|calls| - 1], id, now); }
  }

  /** No window of the configured length, wherever it starts, holds more than the maximum. */
  lemma {:induction false} NaiveWindowNeverOverfull(c: Config, calls: seq<Call>, id: NodeId, start: nat)
    requires c.Valid() && Monotone(calls)
    ensures InWindow(NaiveLog(c, calls, id), start, c.window) <= c.maxPerWindow
  {
    if calls != [] {
      var front, last := calls[..|calls| - 1], calls[|calls| - 1];
      NaiveWindowNeverOverfull(c, front, id, start);
      NaiveLogIsPast(c, front, id, last.now);
      WindowGrows(NaiveLog(c, front, id), last.now, start, c.window);
      if start <= last.now < start + c.window {
        WindowIsRecent(NaiveLog(c, front, id), start, last.now, c.window);
      }
    }
  }

  /** So for an identity that was never evicted, no window holds more than the maximum of the
      attempts the limiter accepted. */
  lemma WindowNeverOverfull(c: Config, calls: seq<Call>, id: NodeId, start: nat)
    requires c.Valid() && Monotone(calls) && NeverEvicted(c, calls, id)
    ensures InWindow(AcceptedLog(c, calls, id), start, c.window) <= c.maxPerWindow
  {
    AgreesWithNaive(c, calls, id);
    NaiveWindowNeverOverfull(c, calls, id, start);
  }

  // ------------------------------------------------------------ exactly when the limit holds

  ghost predicate OnlyFrom(calls: seq<Call>, ids: set<NodeId>) {
    forall i :: 0 <= i < |calls| ==> calls[i].id in ids
  }

  /** Every history by these callers is answered as the reference answers it. */
  ghost predicate Faithful(c: Config, ids: set<NodeId>)
    requires c.Valid()
  {
    forall calls :: calls != [] && Monotone(calls) && OnlyFrom(calls, ids) ==> Answer(c, calls) == NaiveAnswer(c, calls)
  }

  lemma {:induction false} DistinctLength<T>(s: seq<T>, all: set<T>)
    requires NoDuplicates(s) && Elements(s) <= all
    ensures |s| <= |all|
  {
    if s != [] {
      var rest := s[1..];
      assert forall x :: x in rest ==> x in s;
      DistinctLength(rest, all - {s[0]});
    }
  }

  lemma NewcomerFits(c: Config, s: Tracked, call: Call, ids: set<NodeId>)
    requires c.Valid() && Bounded(c, s) && s.hits.Keys <= ids && call.id in ids && |ids| <= c.capacity
    ensures Step(c, s, call).hits.Keys == s.hits.Keys + {call.id}
  {
    StepEffect(c, s, call);
    hide Step;
    if call.id !in s.hits {
      assert Elements(s.order) <= ids - {call.id};
      DistinctLength(s.order, ids - {call.id});
    }
  }

  lemma {:induction false} FewCallersStay(c: Config, calls: seq<Call>, ids: set<NodeId>)
    requires c.Valid() && OnlyFrom(calls, ids) && |ids| <= c.capacity
    ensures forall i :: 0 <= i < |calls| ==> calls[i].id in After(c, calls).hits
    ensures After(c, calls).hits.Keys <= ids
  {
    hide Step;
    if calls != [] {
      var front, last := calls[..|calls| - 1], calls[|calls| - 1];
      FewCallersStay(c, front, ids);
      AlwaysBounded(c, front);
      NewcomerFits(c, After(c, front), last, ids);
      forall i | 0 <= i < |calls| ensures calls[i].id in After(c, calls).hits {
        assert i < |front| ==> front[i] == calls[i];
      }
    }
  }

  lemma FewCallersNeverEvicted(c: Config, calls: seq<Call>, ids: set<NodeId>, id: NodeId)
    requires c.Valid() && OnlyFrom(calls, ids) && |ids| <= c.capacity
    ensures NeverEvicted(c, calls, id)
  {
    forall i, k | 0 <= i < k <= |calls| && calls[i].id == id
      ensures id in After(c, calls[..k]).hits
    {
      FewCallersStay(c, calls[..k], ids);
      assert calls[..k][i].id == id;
    }
  }

  // The history that overruns the limit: one caller uses up its allowance, as many others as
  // fit push it out, and it calls again, all in the same second.

  function Burst(id: NodeId, times: nat): seq<Call> { seq(times, _ => Call(id, 0)) }

  function Each(ids: seq<NodeId>): seq<Call> { seq(|ids|, i requires 0 <= i < |ids| => Call(ids[i], 0)) }

  function Zeros(n: nat): seq<nat> { seq(n, _ => 0) }

  lemma {:induction false} BurstFills(c: Config, id: NodeId, times: nat)
    requires c.Valid() && times <= c.maxPerWindow
    ensures times >= 1 ==> After(c, Burst(id, times)) == Tracked(map[id := Zeros(times)], [id])
    ensures NaiveLog(c, Burst(id, times), id) == Zeros(times)
  {
    if times == 0 {
    } else {
      BurstFills(c, id, times - 1);
      var calls := Burst(id, times);
      assert calls[..|calls| - 1] == Burst(id, times - 1);
      ZerosAreRecent(times - 1, c.window);
      assert Zeros(times - 1) + [0] == Zeros(times);
      assert Expire(Zeros(times - 1), 0, c.window) == Zeros(times - 1);
      assert map[id := Zeros(times - 1)][id := Zeros(times)] == map[id := Zeros(times)];
    }
  }

  lemma {:induction false} ZerosAreRecent(n: nat, window: nat)
    requires window >= 1
    ensures Recent(Zeros(n), 0, window) == n
  {
    if n > 0 {
      assert Zeros(n)[..n - 1] == Zeros(n - 1);
      RecentGrows(Zeros(n), 0, window);
      ZerosAreRecent(n - 1, window);
    }
  }

  lemma QueueUp(c: Config, s: Tracked, id: NodeId, others: seq<NodeId>, newcomer: NodeId)
    requires c.Valid() && Bounded(c, s) && s.order == [id] + others && newcomer !in s.order
    ensures
      var t := Step(c, s, Call(newcomer, 0));
      if |others| + 1 < c.capacity then t.order == [id] + (others + [newcomer]) else id !in t.hits
  {
    StepEffect(c, s, Call(newcomer, 0));
    hide Step;
    assert newcomer !in s.hits && s.order[0] == id && id in s.order;
    assert s.order + [newcomer] == [id] + (others + [newcomer]);
  }

  lemma {:induction false} OthersQueueUp(c: Config, id: NodeId, others: seq<NodeId>)
    requires c.Valid() && c.maxPerWindow >= 1
    requires NoDuplicates([id] + others) && |others| <= c.capacity
    ensures
      var calls := Burst(id, c.maxPerWindow) + Each(others);
      && (|others| < c.capacity ==> After(c, calls).order == [id] + others)
      && (|others| == c.capacity ==> id !in After(c, calls).hits)
      && NaiveLog(c, calls, id) == Zeros(c.maxPerWindow)
  {
    hide Step, Allowed, Bounded, Recent, Zeros;
    var burst := Burst(id, c.maxPerWindow);
    var calls := burst + Each(others);
    if others == [] {
      BurstFills(c, id, c.maxPerWindow);
      assert calls == burst;
    } else {
      var n := |others| - 1;
      var fewer, last := others[..n], others[n];
      assert others == fewer + [last];
      assert calls[..|calls| - 1] == burst + Each(fewer) && calls[|calls| - 1] == Call(last, 0);
      assert forall i :: 0 <= i <= n ==> ([id] + fewer)[i] == ([id] + others)[i];
      OthersQueueUp(c, id, fewer);
      AlwaysBounded(c, burst + Each(fewer));
      assert ([id] + others)[n + 1] == last;
      assert last !in [id] + fewer;
      QueueUp(c, After(c, burst + Each(fewer)), id, fewer, last);
    }
  }

  lemma {:induction false} PickDistinct(ids: set<NodeId>, n: nat) returns (picked: seq<NodeId>)
    requires n <= |ids|
    ensures |picked| == n && NoDuplicates(picked) && Elements(picked) <= ids
  {
    picked := [];
    if n > 0 {
      var id :| id in ids;
      var rest := PickDistinct(ids - {id}, n - 1);
      picked := [id] + rest;
      assert forall x :: x in rest ==> x in Elements(rest);
    }
  }

  lemma OverrunAnswer(c: Config, id: NodeId, others: seq<NodeId>)
    requires c.Valid() && c.maxPerWindow >= 1
    requires NoDuplicates([id] + others) && |others| == c.capacity
    ensures
      var calls := Burst(id, c.maxPerWindow) + Each(others) + [Call(id, 0)];
      Answer(c, calls) && !NaiveAnswer(c, calls)
  {
    hide Step, Recent, NaiveLog, After, Allowed, Burst, Each, Zeros;
    var before := Burst(id, c.maxPerWindow) + Each(others);
    var calls := before + [Call(id, 0)];
    OthersQueueUp(c, id, others);
    AlwaysBounded(c, before);
    StepEffect(c, After(c, before), Call(id, 0));
    assert calls[..|calls| - 1] == before;
    ZerosAreRecent(c.maxPerWindow, c.window);
  }

  /** With more callers than the limiter can track, some history gets one attempt too many. */
  lemma EvictionOverrunsTheLimit(c: Config, ids: set<NodeId>)
    requires c.Valid() && |ids| > c.capacity && c.maxPerWindow >= 1
    ensures !Faithful(c, ids)
  {
    hide Answer, NaiveAnswer;
    var picked := PickDistinct(ids, c.capacity + 1);
    var id, others := picked[0], picked[1..];
    assert picked == [id] + others;
    var calls := Burst(id, c.maxPerWindow) + Each(others) + [Call(id, 0)];
    OverrunAnswer(c, id, others);
    assert forall i :: 0 <= i < |picked| ==> picked[i] in Elements(picked);
    assert forall i :: 0 <= i < |others| ==> others[i] == picked[i + 1];
    assert OnlyFrom(calls, ids);
  }

  /** The limiter is exact for a population of callers precisely when they all fit, or when it
      refuses everyone. */
  lemma FaithfulExactly(c: Config, ids: set<NodeId>)
    requires c.Valid()
    ensures Faithful(c, ids) <==> |ids| <= c.capacity || c.maxPerWindow == 0
  {
    if |ids| <= c.capacity {
      forall calls: seq<Call> | calls != [] && Monotone(calls) && OnlyFrom(calls, ids)
        ensures Answer(c, calls) == NaiveAnswer(c, calls)
      {
        FewCallersNeverEvicted(c, calls, ids, calls[|calls| - 1].id);
        AgreesWithNaive(c, calls, calls[|calls| - 1].id);
      }
    } else if c.maxPerWindow >= 1 {
      EvictionOverrunsTheLimit(c, ids);
    }
  }
}
