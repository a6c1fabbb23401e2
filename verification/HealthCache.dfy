/**
HealthService.getCached: a cache with a time to live, and at most one load in flight per key. The promise
of a load settles, then its entry is written (on success), and only in a later microtask is it removed
from the map of loads in flight; requests and the clock may come between.
*/
module HealthCache {
  import opened Prelude

  datatype CacheKey = Readyz | Healthz

  datatype Entry = Entry(value: string, expiresAt: nat)

  datatype Outcome = Running | Fulfilled(value: string, at: nat) | Rejected

  /** A load; endedAt is when its finally callback ran. */
  datatype Load = Load(key: CacheKey, ttl: nat, startedAt: nat, outcome: Outcome, endedAt: Option<nat>)

  /** How a request was answered: from the cache, or with the promise of a load. */
  datatype Request = Served(key: CacheKey, at: nat, value: string) | Awaits(key: CacheKey, at: nat, load: nat)

  datatype State = State(
    cache: map<CacheKey, Entry>,
    inFlight: map<CacheKey, nat>,
    loads: seq<Load>,
    requests: seq<Request>,
    now: nat)

  datatype Action =
    | Ask(key: CacheKey, ttl: nat)
    | Fulfil(load: nat, value: string)  // the then callback
    | Reject(load: nat)
    | End(load: nat)  // the finally callback
    | Pass(d: nat)  // the process clock moves on; it is taken not to go back

  const START := State(map[], map[], [], [], 0)

  predicate Fresh(s: State, key: CacheKey) {
    key in s.cache && s.cache[key].expiresAt > s.now
  }

  predicate IsRunning(s: State, l: nat) {
    l < |s.loads| && s.loads[l].outcome.Running?
  }

  predicate Outstanding(s: State, l: nat) {
    l < |s.loads| && s.loads[l].endedAt.None?
  }

  function AskStep(s: State, key: CacheKey, ttl: nat): State {
    if Fresh(s, key) then s.(requests := s.requests + [Served(key, s.now, s.cache[key].value)])
    else if key in s.inFlight then s.(requests := s.requests + [Awaits(key, s.now, s.inFlight[key])])
    else
      s.(inFlight := s.inFlight[key := |s.loads|],
         loads := s.loads + [Load(key, ttl, s.now, Running, None)],
         requests := s.requests + [Awaits(key, s.now, |s.loads|)])
  }

  function Step(s: State, a: Action): State {
    match a
    case Ask(key, ttl) => AskStep(s, key, ttl)
    case Fulfil(l, value) =>
      if IsRunning(s, l) then
        s.(cache := s.cache[s.loads[l].key := Entry(value, s.now + s.loads[l].ttl)],
           loads := s.loads[l := s.loads[l].(outcome := Fulfilled(value, s.now))])
      else s
    case Reject(l) => if IsRunning(s, l) then s.(loads := s.loads[l := s.loads[l].(outcome := Rejected)]) else s
    case End(l) =>
      if Outstanding(s, l) && !IsRunning(s, l) then
        s.(inFlight := s.inFlight - {s.loads[l].key}, loads := s.loads[l := s.loads[l].(endedAt := Some(s.now))])
      else s
    case Pass(d) => s.(now := s.now + d)
  }

  function Run(s: State, actions: seq<Action>): State
    decreases |actions|
  {
    if actions == [] then s else Run(Step(s, actions[0]), actions[1..])
  }

  // ----- what every run keeps -----

  predicate LoadOk(s: State, i: nat)
    requires i < |s.loads|
  {
    var load := s.loads[i];
    load.startedAt <= s.now && (load.outcome.Fulfilled? ==> load.startedAt <= load.outcome.at <= s.now) &&
    (load.endedAt.Some? ==> !load.outcome.Running? && load.startedAt <= load.endedAt.value <= s.now) &&
    (load.endedAt.None? <==> load.key in s.inFlight && s.inFlight[load.key] == i)
  }

  predicate InFlightOk(s: State, key: CacheKey) {
    key in s.inFlight ==> s.inFlight[key] < |s.loads| && s.loads[s.inFlight[key]].key == key
  }

  /** Loads of one key come one after the other. */
  predicate InTurn(loads: seq<Load>, i: nat, j: nat)
    requires i < j < |loads|
  {
    loads[i].key == loads[j].key ==> loads[i].endedAt.Some? && loads[i].endedAt.value <= loads[j].startedAt
  }

  /** Load m is the last one fulfilled for the key. */
  predicate LastFulfilled(loads: seq<Load>, key: CacheKey, m: nat) {
    m < |loads| && loads[m].key == key && loads[m].outcome.Fulfilled? &&
    forall i :: m < i < |loads| && loads[i].key == key ==> !loads[i].outcome.Fulfilled?
  }

  predicate Holds(entry: Entry, load: Load) {
    load.outcome.Fulfilled? && entry == Entry(load.outcome.value, load.outcome.at + load.ttl)
  }

  ghost predicate CacheOk(cache: map<CacheKey, Entry>, loads: seq<Load>, key: CacheKey) {
    if key in cache then exists m: nat :: LastFulfilled(loads, key, m) && Holds(cache[key], loads[m])
    else forall i :: 0 <= i < |loads| && loads[i].key == key ==> !loads[i].outcome.Fulfilled?
  }

  /** Load m gave the value of a served request in time, and no later load had been fulfilled before it. */
  predicate ServedBy(loads: seq<Load>, r: Request, m: nat)
    requires r.Served?
  {
    m < |loads| && loads[m].key == r.key && loads[m].outcome.Fulfilled? && loads[m].outcome.value == r.value &&
    loads[m].outcome.at <= r.at < loads[m].outcome.at + loads[m].ttl &&
    forall i :: m < i < |loads| && loads[i].key == r.key && loads[i].outcome.Fulfilled? ==> r.at <= loads[i].outcome.at
  }

  ghost predicate RequestOk(loads: seq<Load>, r: Request) {
    match r
    case Served(_, _, _) => exists m: nat :: ServedBy(loads, r, m)
    case Awaits(key, at, l) =>
      l < |loads| && loads[l].key == key && loads[l].startedAt <= at &&
      (loads[l].endedAt.Some? ==> at <= loads[l].endedAt.value)
  }

  ghost predicate Inv(s: State) {
    (forall i :: 0 <= i < |s.loads| ==> LoadOk(s, i)) &&
    (forall i, j :: 0 <= i < j < |s.loads| ==> InTurn(s.loads, i, j)) &&
    (forall key :: InFlightOk(s, key)) &&
    (forall key :: CacheOk(s.cache, s.loads, key)) &&
    (forall i :: 0 <= i < |s.requests| ==> s.requests[i].at <= s.now && RequestOk(s.loads, s.requests[i]))
  }

  /** One step changes a load only by settling it, or by ending it, now; new loads are running. */
  predicate Evolves(s: State, s': State) {
    |s.loads| <= |s'.loads| && s.now <= s'.now &&
    (forall i :: 0 <= i < |s.loads| ==> LoadEvolves(s.loads[i], s'.loads[i], s.now)) &&
    (forall i :: |s.loads| <= i < |s'.loads| ==> s'.loads[i].outcome.Running?)
  }

  predicate LoadEvolves(load: Load, load': Load, now: nat) {
    load'.key == load.key && load'.ttl == load.ttl && load'.startedAt == load.startedAt &&
    (load'.outcome == load.outcome ||
     (load.outcome.Running? && (load'.outcome.Fulfilled? ==> load'.outcome.at == now))) &&
    (load'.endedAt == load.endedAt || (load.endedAt.None? && load'.endedAt == Some(now)))
  }

  lemma StepEvolves(s: State, a: Action)
    ensures Evolves(s, Step(s, a))
  {}

  lemma RequestStays(s: State, s': State, r: Request)
    requires Evolves(s, s') && RequestOk(s.loads, r) && r.at <= s.now
    ensures RequestOk(s'.loads, r)
  {
    if r.Served? {
      var m: nat :| ServedBy(s.loads, r, m);
      assert LoadEvolves(s.loads[m], s'.loads[m], s.now);
      forall i | m < i < |s'.loads| && s'.loads[i].key == r.key && s'.loads[i].outcome.Fulfilled?
        ensures r.at <= s'.loads[i].outcome.at
      {
        assert i < |s.loads| && LoadEvolves(s.loads[i], s'.loads[i], s.now);
      }
      assert ServedBy(s'.loads, r, m);
    }
  }

  lemma StepKeepsRequests(s: State, a: Action)
    requires Inv(s)
    ensures var s' := Step(s, a);
            forall i :: 0 <= i < |s'.requests| ==> s'.requests[i].at <= s'.now && RequestOk(s'.loads, s'.requests[i])
  {
    var s' := Step(s, a);
    StepEvolves(s, a);
    forall i | 0 <= i < |s'.requests| ensures s'.requests[i].at <= s'.now && RequestOk(s'.loads, s'.requests[i]) {
      if i < |s.requests| {
        RequestStays(s, s', s.requests[i]);
      } else {
        NewRequest(s, a.key, a.ttl);
      }
    }
  }

  lemma NewRequest(s: State, key: CacheKey, ttl: nat)
    requires Inv(s)
    ensures RequestOk(AskStep(s, key, ttl).loads, AskStep(s, key, ttl).requests[|s.requests|])
  {
    assert InFlightOk(s, key) && CacheOk(s.cache, s.loads, key);
    if Fresh(s, key) {
      var m: nat :| LastFulfilled(s.loads, key, m) && Holds(s.cache[key], s.loads[m]);
      assert LoadOk(s, m);
      assert ServedBy(s.loads, Served(key, s.now, s.cache[key].value), m);
    } else if key in s.inFlight {
      assert LoadOk(s, s.inFlight[key]);
    }
  }

  lemma StepKeepsCache(s: State, a: Action, key: CacheKey)
    requires Inv(s)
    ensures CacheOk(Step(s, a).cache, Step(s, a).loads, key)
  {
    var s' := Step(s, a);
    assert CacheOk(s.cache, s.loads, key);
    if a.Fulfil? && IsRunning(s, a.load) && s.loads[a.load].key == key {
      assert LoadOk(s, a.load);
      forall i | a.load < i < |s.loads| ensures s.loads[i].key != key {
        assert InTurn(s.loads, a.load, i);
      }
      assert LastFulfilled(s'.loads, key, a.load) && Holds(s'.cache[key], s'.loads[a.load]);
    } else if key in s.cache {
      var m: nat :| LastFulfilled(s.loads, key, m) && Holds(s.cache[key], s.loads[m]);
      assert LastFulfilled(s'.loads, key, m) && Holds(s'.cache[key], s'.loads[m]);
    }
  }

  lemma StepKeepsLoad(s: State, a: Action, i: nat)
    requires Inv(s) && i < |Step(s, a).loads|
    ensures LoadOk(Step(s, a), i)
  {
    if i < |s.loads| {
      assert LoadOk(s, i) && InFlightOk(s, s.loads[i].key);
      if a.End? && Outstanding(s, a.load) { assert LoadOk(s, a.load); }
    }
  }

  lemma StepKeepsTurns(s: State, a: Action, i: nat, j: nat)
    requires Inv(s) && i < j < |Step(s, a).loads|
    ensures InTurn(Step(s, a).loads, i, j)
  {
    assert LoadOk(s, i);
    if j < |s.loads| { assert InTurn(s.loads, i, j); }
  }

  lemma StepKeepsInFlight(s: State, a: Action, key: CacheKey)
    requires Inv(s)
    ensures InFlightOk(Step(s, a), key)
  {
    assert InFlightOk(s, key);
  }

  lemma StepKeeps(s: State, a: Action)
    requires Inv(s)
    ensures Inv(Step(s, a))
  {
    StepKeepsRequests(s, a);
    var s' := Step(s, a);
    forall i | 0 <= i < |s'.loads| ensures LoadOk(s', i) { StepKeepsLoad(s, a, i); }
    forall i, j | 0 <= i < j < |s'.loads| ensures InTurn(s'.loads, i, j) { StepKeepsTurns(s, a, i, j); }
    forall key ensures InFlightOk(s', key) && CacheOk(s'.cache, s'.loads, key) {
      StepKeepsInFlight(s, a, key);
      StepKeepsCache(s, a, key);
    }
  }

  lemma {:induction false} RunKeeps(s: State, actions: seq<Action>)
    requires Inv(s)
    ensures Inv(Run(s, actions))
    decreases |actions|
  {
    if actions != [] {
      StepKeeps(s, actions[0]);
      RunKeeps(Step(s, actions[0]), actions[1..]);
    }
  }

  lemma Reachable(actions: seq<Action>)
    ensures Inv(Run(START, actions))
  {
    RunKeeps(START, actions);
  }

  lemma {:induction false} RunAppend(s: State, first: seq<Action>, second: seq<Action>)
    ensures Run(s, first + second) == Run(Run(s, first), second)
    decreases |first|
  {
    if first == [] {
      assert first + second == second;
    } else {
      assert (first + second)[1..] == first[1..] + second;
      RunAppend(Step(s, first[0]), first[1..], second);
    }
  }

  // ----- theorems -----

  /** Single flight: of two loads of one key, the second starts only after the first has ended. */
  lemma OneLoadAtATime(actions: seq<Action>, i: nat, j: nat)
    requires i < j < |Run(START, actions).loads| && Run(START, actions).loads[i].key == Run(START, actions).loads[j].key
    ensures var loads := Run(START, actions).loads;
            loads[i].endedAt.Some? && !loads[i].outcome.Running? && loads[i].endedAt.value <= loads[j].startedAt
  {
    var s := Run(START, actions);
    Reachable(actions);
    assert InTurn(s.loads, i, j) && LoadOk(s, i);
  }

  /**
  A value answered from the cache is the value of one load of that key, which succeeded less than its time
  to live before the request; every load fulfilled strictly before the request came no later than that one.
  */
  lemma ServedInTime(actions: seq<Action>, r: Request) returns (m: nat)
    requires r in Run(START, actions).requests && r.Served?
    ensures var loads := Run(START, actions).loads;
            && m < |loads| && loads[m].key == r.key && loads[m].outcome.Fulfilled? && loads[m].outcome.value == r.value
            && loads[m].outcome.at <= r.at < loads[m].outcome.at + loads[m].ttl
            && forall i :: m < i < |loads| && loads[i].key == r.key && loads[i].outcome.Fulfilled? ==>
              r.at <= loads[i].outcome.at
  {
    var s := Run(START, actions);
    Reachable(actions);
    var k :| 0 <= k < |s.requests| && s.requests[k] == r;
    assert RequestOk(s.loads, s.requests[k]);
    m :| ServedBy(s.loads, r, m);
  }

  /**
  And such a value is served: a request is answered with the value of the latest fulfilled load of its key exactly
  while that load was fulfilled less than its time to live ago, and otherwise waits for an outstanding load.
  */
  lemma ServedWhileFresh(actions: seq<Action>, key: CacheKey, ttl: nat, m: nat)
    requires LastFulfilled(Run(START, actions).loads, key, m)
    ensures var s := Run(START, actions);
            var s' := Step(s, Ask(key, ttl));
            && |s'.requests| == |s.requests| + 1
            && var r := s'.requests[|s.requests|];
               if s.now < s.loads[m].outcome.at + s.loads[m].ttl then
                 r == Served(key, s.now, s.loads[m].outcome.value) && s'.loads == s.loads
               else r.Awaits? && Outstanding(s', r.load) && s'.loads[r.load].key == key
  {
    var s := Run(START, actions);
    Reachable(actions);
    assert CacheOk(s.cache, s.loads, key) && InFlightOk(s, key);
    var n: nat :| LastFulfilled(s.loads, key, n) && Holds(s.cache[key], s.loads[n]);
    assert n == m by { OneIsLast(s.loads, key, m, n); }
    if key in s.inFlight { assert LoadOk(s, s.inFlight[key]); }
  }

  lemma OneIsLast(loads: seq<Load>, key: CacheKey, m: nat, n: nat)
    requires LastFulfilled(loads, key, m) && LastFulfilled(loads, key, n)
    ensures m == n
  {
    assert m < n || n < m || m == n;
  }

  /** A key none of whose loads has succeeded is never answered from the cache. */
  lemma NothingToServe(actions: seq<Action>, key: CacheKey, ttl: nat)
    requires forall i :: 0 <= i < |Run(START, actions).loads| && Run(START, actions).loads[i].key == key ==>
               !Run(START, actions).loads[i].outcome.Fulfilled?
    ensures var s := Run(START, actions);
            var s' := Step(s, Ask(key, ttl));
            && |s'.requests| == |s.requests| + 1 && s'.requests[|s.requests|].Awaits?
            && (|s'.loads| == |s.loads| + 1 <==> key !in s.inFlight)
  {
    var s := Run(START, actions);
    Reachable(actions);
    assert CacheOk(s.cache, s.loads, key);
  }

  /** What a load came to is final, so everyone holding its promise sees the same outcome. */
  lemma {:induction false} OutcomeIsFinal(s: State, actions: seq<Action>, l: nat)
    requires l < |s.loads|
    ensures l < |Run(s, actions).loads| && Run(s, actions).loads[l].key == s.loads[l].key
    ensures !s.loads[l].outcome.Running? ==> Run(s, actions).loads[l].outcome == s.loads[l].outcome
    decreases |actions|
  {
    if actions != [] {
      StepEvolves(s, actions[0]);
      assert LoadEvolves(s.loads[l], Step(s, actions[0]).loads[l], s.now);
      OutcomeIsFinal(Step(s, actions[0]), actions[1..], l);
    }
  }

  predicate AwaitsOnly(r: Request, l: nat) {
    r.Awaits? ==> r.load == l
  }

  /**
  As long as a load is outstanding, every request for its key is answered from the cache or with that
  very load's promise: none starts another, and none waits for anything else.
  */
  lemma {:induction false} ArrivalsShareTheLoad(s: State, actions: seq<Action>, l: nat)
    requires Inv(s) && Outstanding(s, l) && Outstanding(Run(s, actions), l)
    ensures |Run(s, actions).requests| >= |s.requests|
    ensures forall i :: |s.requests| <= i < |Run(s, actions).requests| ==>
              Run(s, actions).requests[i].key == s.loads[l].key ==> AwaitsOnly(Run(s, actions).requests[i], l)
    decreases |actions|
  {
    if actions != [] {
      var s' := Step(s, actions[0]);
      StepKeeps(s, actions[0]);
      StepEvolves(s, actions[0]);
      assert LoadEvolves(s.loads[l], s'.loads[l], s.now);
      assert LoadOk(s, l);
      EndedStays(s', actions[1..], l);
      ArrivalsShareTheLoad(s', actions[1..], l);
      RequestsStay(s', actions[1..]);
    }
  }

  lemma {:induction false} EndedStays(s: State, actions: seq<Action>, l: nat)
    requires l < |s.loads|
    ensures l < |Run(s, actions).loads|
    ensures s.loads[l].endedAt.Some? ==> Run(s, actions).loads[l].endedAt.Some?
    decreases |actions|
  {
    if actions != [] {
      StepEvolves(s, actions[0]);
      assert LoadEvolves(s.loads[l], Step(s, actions[0]).loads[l], s.now);
      EndedStays(Step(s, actions[0]), actions[1..], l);
    }
  }

  lemma {:induction false} RequestsStay(s: State, actions: seq<Action>)
    ensures |s.requests| <= |Run(s, actions).requests| && s.requests == Run(s, actions).requests[..|s.requests|]
    decreases |actions|
  {
    if actions != [] {
      RequestsStay(Step(s, actions[0]), actions[1..]);
    }
  }

  /**
  A failed load leaves the cache as it was, and once it has ended the key is free again: the next request
  finds the old entry if that is still fresh, and otherwise starts a load of its own.
  */
  lemma FailureIsForgotten(actions: seq<Action>, l: nat, d: nat, ttl: nat)
    requires IsRunning(Run(START, actions), l)
    ensures var s := Run(START, actions);
            var key := s.loads[l].key;
            var s' := Run(s, [Reject(l), Pass(d), End(l)]);
            var asked := Step(s', Ask(key, ttl));
            && s'.cache == s.cache && key !in s'.inFlight && s'.requests == s.requests
            && asked.requests[|s.requests|] ==
               (if Fresh(s', key) then Served(key, s.now + d, s.cache[key].value)
                else Awaits(key, s.now + d, |s.loads|))
            && (!Fresh(s', key) ==> IsRunning(asked, |s.loads|))
  {
    var s := Run(START, actions);
    Reachable(actions);
    assert LoadOk(s, l);
    RunThree(s, Reject(l), Pass(d), End(l));
  }

  lemma RunThree(s: State, a: Action, b: Action, c: Action)
    ensures Run(s, [a, b, c]) == Step(Step(Step(s, a), b), c)
  {
    assert [a, b, c][1..] == [b, c] && [b, c][1..] == [c] && [c][1..] == [];
    assert Run(Step(s, a), [b, c]) == Run(Step(Step(s, a), b), [c]);
  }

  // ----- the class -----

  datatype Answer = Value(value: string) | Promise(load: nat)

  class HealthService {
    var cache: map<CacheKey, Entry>
    var inFlight: map<CacheKey, nat>
    var loads: seq<Load>
    var now: nat
    ghost var requests: seq<Request>
    ghost var trace: seq<Action>

    ghost function Now(): State
      reads this
    {
      State(cache, inFlight, loads, requests, now)
    }

    ghost predicate Valid()
      reads this
    {
      Now() == Run(START, trace)
    }

    constructor ()
      ensures Valid() && Now() == START
    {
      cache, inFlight, loads, now, requests, trace := map[], map[], [], 0, [], [];
    }

    ghost method Record(a: Action)
      modifies this`trace
      ensures trace == old(trace) + [a] && Run(START, trace) == Step(Run(START, old(trace)), a)
    {
      RunAppend(START, trace, [a]);
      assert Run(Run(START, trace), [a]) == Step(Run(START, trace), a);
      trace := trace + [a];
    }

    /**
    getCached: a fresh entry is served; otherwise the caller gets the promise of the one outstanding load
    of the key, started now if there was none.
    */
    method GetCached(key: CacheKey, ttl: nat) returns (answer: Answer)
      requires Valid()
      modifies this
      ensures Valid() && Now() == Step(old(Now()), Ask(key, ttl))
      ensures answer.Value? <==> old(Fresh(Now(), key))
      ensures answer.Value? <==> key in old(cache) && now < old(cache)[key].expiresAt
      ensures answer.Value? ==> old(key in cache) && answer.value == old(cache)[key].value && loads == old(loads)
      ensures answer.Promise? ==> Outstanding(Now(), answer.load) && loads[answer.load].key == key
      ensures answer.Promise? && key in old(inFlight) ==> answer.load == old(inFlight)[key] && loads == old(loads)
      ensures answer.Promise? && key !in old(inFlight) ==> loads == old(loads) + [Load(key, ttl, now, Running, None)]
      ensures answer.Promise? ==> loads == old(loads) || (answer.load == |old(loads)| && IsRunning(Now(), answer.load))
    {
      Reachable(trace);
      Record(Ask(key, ttl));
      if key in cache && cache[key].expiresAt > now {
        requests := requests + [Served(key, now, cache[key].value)];
        return Value(cache[key].value);
      }
      if key in inFlight {
        assert InFlightOk(old(Now()), key) && LoadOk(old(Now()), inFlight[key]);
        requests := requests + [Awaits(key, now, inFlight[key])];
        return Promise(inFlight[key]);
      }
      answer := Promise(|loads|);
      loads := loads + [Load(key, ttl, now, Running, None)];
      inFlight := inFlight[key := answer.load];
      requests := requests + [Awaits(key, now, answer.load)];
    }

    /** The load succeeded: the then callback writes its entry. */
    method OnFulfilled(l: nat, value: string)
      requires Valid() && l < |loads| && loads[l].outcome.Running?
      modifies this
      ensures Valid() && Now() == Step(old(Now()), Fulfil(l, value))
      ensures loads[l].key in cache && Holds(cache[loads[l].key], loads[l])
    {
      Record(Fulfil(l, value));
      cache := cache[loads[l].key := Entry(value, now + loads[l].ttl)];
      loads := loads[l := loads[l].(outcome := Fulfilled(value, now))];
    }

    /** The load failed: nothing is written, and its promise is still in flight. */
    method OnRejected(l: nat)
      requires Valid() && l < |loads| && loads[l].outcome.Running?
      modifies this
      ensures Valid() && Now() == Step(old(Now()), Reject(l))
      ensures cache == old(cache) && inFlight == old(inFlight) && loads[l].outcome.Rejected?
    {
      Record(Reject(l));
      loads := loads[l := loads[l].(outcome := Rejected)];
    }

    /** The process clock moves on. */
    method PassTime(d: nat)
      requires Valid()
      modifies this
      ensures Valid() && Now() == Step(old(Now()), Pass(d)) && now == old(now) + d
    {
      Record(Pass(d));
      now := now + d;
    }

    /** The finally callback, after success or failure: the key may be loaded again. */
    method OnFinally(l: nat)
      requires Valid() && l < |loads| && !loads[l].outcome.Running? && loads[l].endedAt.None?
      modifies this
      ensures Valid() && Now() == Step(old(Now()), End(l))
      ensures loads[l].key !in inFlight && cache == old(cache)
    {
      Record(End(l));
      inFlight := inFlight - {loads[l].key};
      loads := loads[l := loads[l].(endedAt := Some(now))];
    }
  }
}
