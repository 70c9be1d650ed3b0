/**
 The in-memory rate limiter: a bounded queue of accept times per key, swept in
 the background, against the plain rule "accept while fewer than maxRequestNum
 accepted requests of the whole history are younger than duration".
 */
module RateLimit {

  /** The arguments a key is always asked with. */
  datatype Limit = Limit(max: int, duration: int)

  type Store = map<string, seq<int>>

  predicate WellFormed(store: Store) {
    forall key :: key in store ==> store[key] != []
  }

  function QueueOf(store: Store, key: string): seq<int> {
    if key in store then store[key] else []
  }

  /** The answer of Request. */
  predicate Accepts(store: Store, key: string, limit: Limit, now: int)
    requires WellFormed(store)
  {
    key !in store || |store[key]| < limit.max || now - store[key][0] >= limit.duration
  }

  /** The store after Request. */
  function Requested(store: Store, key: string, limit: Limit, now: int): Store
    requires WellFormed(store)
  {
    if !Accepts(store, key, limit, now) then store
    else if key !in store || |store[key]| < limit.max then store[key := QueueOf(store, key) + [now]]
    else store[key := store[key][1..] + [now]]
  }

  predicate Expired(queue: seq<int>, expiration: int, now: int) {
    |queue| == 0 || now - queue[|queue| - 1] > expiration
  }

  /** The store after one round of clearExpiredItems. */
  function Swept(store: Store, expiration: int, now: int): Store {
    map key | key in store && !Expired(store[key], expiration, now) :: store[key]
  }

  class InMemoryRateLimiter {
    var store: Store
    const expiration: int   // seconds

    ghost predicate Valid()
      reads this
    {
      WellFormed(store)
    }

    constructor (expiration: int)
      ensures Valid() && store == map[] && this.expiration == expiration
    {
      this.store := map[];
      this.expiration := expiration;
    }

    method Request(key: string, maxRequestNum: int, duration: int, now: int) returns (ok: bool)
      requires Valid()
      modifies this
      ensures Valid()
      ensures ok == Accepts(old(store), key, Limit(maxRequestNum, duration), now)
      ensures store == Requested(old(store), key, Limit(maxRequestNum, duration), now)
    {
      if key in store {
        var queue := store[key];
        if |queue| < maxRequestNum {
          store := store[key := queue + [now]];
          return true;
        } else if now - queue[0] >= duration {
          queue := queue[1..];
          store := store[key := queue + [now]];
          return true;
        } else {
          return false;
        }
      } else {
        store := store[key := []];
        store := store[key := store[key] + [now]];
      }
      return true;
    }

    /** One round of the sweeper: visit every key, delete the expired ones. */
    method ClearExpiredItems(now: int)
      requires Valid()
      modifies this
      ensures Valid()
      ensures store == Swept(old(store), expiration, now)
    {
      var keys := store.Keys;
      while keys != {}
        invariant keys <= store.Keys
        invariant store.Keys <= old(store).Keys
        invariant forall key :: key in store ==> store[key] == old(store)[key]
        invariant forall key :: key in old(store) && key !in keys ==>
                    (key in store <==> !Expired(old(store)[key], expiration, now))
        decreases keys
      {
        var key :| key in keys;
        var queue := store[key];
        var size := |queue|;
        if size == 0 || now - queue[size - 1] > expiration {
          store := store - {key};
        }
        keys := keys - {key};
      }
    }
  }

  // ---- runs ----------------------------------------------------------------------

  /** What happens to the limiter over time: a request on a key, or a sweep. */
  datatype Event = Ask(key: string, now: int) | Sweep(now: int)

  /** `log` is the unbounded history of accepted requests, oldest first. */
  datatype World = World(store: Store, log: map<string, seq<int>>)

  function LogOf(w: World, key: string): seq<int> {
    if key in w.log then w.log[key] else []
  }

  function Step(w: World, limits: string -> Limit, expiration: int, e: Event): World
    requires WellFormed(w.store)
    ensures WellFormed(Step(w, limits, expiration, e).store)
  {
    match e
    case Ask(key, now) =>
      World(Requested(w.store, key, limits(key), now),
            if Accepts(w.store, key, limits(key), now) then w.log[key := LogOf(w, key) + [now]] else w.log)
    case Sweep(now) =>
      // Init starts the sweeper only for a positive expiration
      if expiration > 0 then w.(store := Swept(w.store, expiration, now)) else w
  }

  function Exec(limits: string -> Limit, expiration: int, events: seq<Event>): (w: World)
    ensures WellFormed(w.store)
    decreases |events|
  {
    if events == [] then World(map[], map[])
    else Step(Exec(limits, expiration, events[..|events| - 1]), limits, expiration, events[|events| - 1])
  }

  ghost predicate Monotone(events: seq<Event>) {
    forall i, j :: 0 <= i < j < |events| ==> events[i].now <= events[j].now
  }

  /** How many accepted requests are younger than `duration`. */
  function Recent(log: seq<int>, duration: int, now: int): nat {
    if log == [] then 0
    else Recent(log[..|log| - 1], duration, now) + (if now - log[|log| - 1] < duration then 1 else 0)
  }

  // ---- the queue is the live end of the log ----------------------------------------

  ghost predicate Sorted(log: seq<int>) {
    forall i, j :: 0 <= i < j < |log| ==> log[i] <= log[j]
  }

  /** The `max`-th accept after any accept comes at least `duration` later. */
  ghost predicate Spaced(log: seq<int>, limit: Limit) {
    forall i, j :: 0 <= i < j < |log| && j - i >= limit.max ==> log[j] - log[i] >= limit.duration
  }

  ghost predicate KeyInv(queue: seq<int>, log: seq<int>, limit: Limit, clock: int) {
    && |queue| <= limit.max && |queue| <= |log|
    && queue == log[|log| - |queue|..]
    && Sorted(log) && (forall i :: 0 <= i < |log| ==> log[i] <= clock)
    && (forall i :: 0 <= i < |log| - |queue| ==> clock - log[i] >= limit.duration)
    && Spaced(log, limit)
  }

  /** The hypotheses under which the limiter follows the rule. */
  predicate Sound(limit: Limit, expiration: int) {
    limit.max >= 1 && (expiration <= 0 || limit.duration <= expiration + 1)
  }

  lemma {:induction false} RecentIsTail(log: seq<int>, live: nat, duration: int, now: int)
    requires live <= |log|
    requires forall i :: 0 <= i < |log| - live ==> now - log[i] >= duration
    requires forall i :: |log| - live <= i < |log| ==> now - log[i] < duration
    ensures Recent(log, duration, now) == live
  {
    if log != [] {
      RecentIsTail(log[..|log| - 1], if live > 0 then live - 1 else 0, duration, now);
    }
  }

  lemma {:induction false} RecentAtMost(log: seq<int>, live: nat, duration: int, now: int)
    requires live <= |log|
    requires forall i :: 0 <= i < |log| - live ==> now - log[i] >= duration
    ensures Recent(log, duration, now) <= live
  {
    if log != [] {
      RecentAtMost(log[..|log| - 1], if live > 0 then live - 1 else 0, duration, now);
    }
  }

  /** Request's test on the bounded queue is the rule on the whole log. */
  lemma AcceptsIsRule(store: Store, key: string, log: seq<int>, limit: Limit, clock: int, now: int)
    requires WellFormed(store) && limit.max >= 1 && clock <= now
    requires KeyInv(QueueOf(store, key), log, limit, clock)
    ensures Accepts(store, key, limit, now) <==> Recent(log, limit.duration, now) < limit.max
  {
    var queue := QueueOf(store, key);
    if |queue| < limit.max {
      RecentAtMost(log, |queue|, limit.duration, now);
    } else if now - queue[0] >= limit.duration {
      assert log[|log| - |queue|] == queue[0];
      RecentAtMost(log, |queue| - 1, limit.duration, now);
    } else {
      assert log[|log| - |queue|] == queue[0];
      RecentIsTail(log, |queue|, limit.duration, now);
    }
  }

  lemma Later(queue: seq<int>, log: seq<int>, limit: Limit, clock: int, clock': int)
    requires KeyInv(queue, log, limit, clock) && clock <= clock'
    ensures KeyInv(queue, log, limit, clock')
  {
  }

  /** Accepting at `now` appends to the log; `queue'` is the new live end. */
  lemma AppendKeepsKeyInv(queue: seq<int>, log: seq<int>, limit: Limit, now: int, queue': seq<int>)
    requires KeyInv(queue, log, limit, now) && limit.max >= 1
    requires if |queue| < limit.max then queue' == queue + [now]
             else queue' == queue[1..] + [now] && now - queue[0] >= limit.duration
    ensures KeyInv(queue', log + [now], limit, now)
  {
    var log' := log + [now];
    assert |queue| == limit.max ==> log[|log| - |queue|] == queue[0];
    forall i | 0 <= i < |log| && |log| - i >= limit.max ensures now - log[i] >= limit.duration {
      assert i <= |log| - limit.max;
    }
    assert queue' == log'[|log'| - |queue'|..];
  }

  lemma AskKeepsKeyInv(store: Store, key: string, log: seq<int>, limit: Limit, clock: int, now: int)
    requires WellFormed(store) && limit.max >= 1 && clock <= now
    requires KeyInv(QueueOf(store, key), log, limit, clock)
    ensures KeyInv(QueueOf(Requested(store, key, limit, now), key),
                   if Accepts(store, key, limit, now) then log + [now] else log, limit, now)
  {
    var queue := QueueOf(store, key);
    Later(queue, log, limit, clock, now);
    if Accepts(store, key, limit, now) {
      AppendKeepsKeyInv(queue, log, limit, now, QueueOf(Requested(store, key, limit, now), key));
    }
  }

  lemma SweepKeepsKeyInv(store: Store, key: string, log: seq<int>, limit: Limit, expiration: int, clock: int, now: int)
    requires WellFormed(store) && Sound(limit, expiration) && expiration > 0 && clock <= now
    requires KeyInv(QueueOf(store, key), log, limit, clock)
    ensures KeyInv(QueueOf(Swept(store, expiration, now), key), log, limit, now)
  {
    if key in store && Expired(store[key], expiration, now) {
      assert store[key][|store[key]| - 1] == log[|log| - 1];
    }
  }

  /** The invariant of one key over every run with a non-decreasing clock. */
  lemma {:induction false} KeyInvHolds(limits: string -> Limit, expiration: int, events: seq<Event>, key: string, clock: int)
    requires Monotone(events) && Sound(limits(key), expiration)
    requires forall i :: 0 <= i < |events| ==> events[i].now <= clock
    ensures var w := Exec(limits, expiration, events);
      KeyInv(QueueOf(w.store, key), LogOf(w, key), limits(key), clock)
    decreases |events|
  {
    if events != [] {
      var init, e := events[..|events| - 1], events[|events| - 1];
      var before := if init == [] then e.now else init[|init| - 1].now;
      KeyInvHolds(limits, expiration, init, key, before);
      StepKeepsKeyInv(Exec(limits, expiration, init), limits, expiration, e, key, before);
      var w := Exec(limits, expiration, events);
      Later(QueueOf(w.store, key), LogOf(w, key), limits(key), e.now, clock);
    }
  }

  lemma StepKeepsKeyInv(w: World, limits: string -> Limit, expiration: int, e: Event, key: string, clock: int)
    requires WellFormed(w.store) && Sound(limits(key), expiration) && clock <= e.now
    requires KeyInv(QueueOf(w.store, key), LogOf(w, key), limits(key), clock)
    ensures var w' := Step(w, limits, expiration, e);
      KeyInv(QueueOf(w'.store, key), LogOf(w', key), limits(key), e.now)
  {
    hide KeyInv;
    if e.Ask? && e.key == key {
      AskKeepsKeyInv(w.store, key, LogOf(w, key), limits(key), clock, e.now);
    } else if e.Sweep? && expiration > 0 {
      SweepKeepsKeyInv(w.store, key, LogOf(w, key), limits(key), expiration, clock, e.now);
    } else {
      Later(QueueOf(w.store, key), LogOf(w, key), limits(key), clock, e.now);
    }
  }

  // ---- what the limiter promises -----------------------------------------------------

  /** The limiter agrees with the rule on `key` after every run. */
  ghost predicate AlwaysAgrees(limits: string -> Limit, expiration: int, key: string) {
    forall events, now :: AgreesAfter(limits, expiration, events, key, now)
  }

  ghost predicate AgreesAfter(limits: string -> Limit, expiration: int, events: seq<Event>, key: string, now: int) {
    var w := Exec(limits, expiration, events);
    Monotone(events + [Ask(key, now)]) ==>
      (Accepts(w.store, key, limits(key), now)
       <==> Recent(LogOf(w, key), limits(key).duration, now) < limits(key).max)
  }

  /** Over every run with a non-decreasing clock, other keys and sweeps
      interleaved anywhere, a request is accepted exactly when fewer than
      maxRequestNum accepted requests of the full history are younger than
      duration. */
  lemma FollowsTheLog(limits: string -> Limit, expiration: int, events: seq<Event>, key: string, now: int)
    requires Sound(limits(key), expiration)
    ensures AgreesAfter(limits, expiration, events, key, now)
  {
    var all := events + [Ask(key, now)];
    if Monotone(all) {
      assert forall i :: 0 <= i < |events| ==> all[i] == events[i];
      assert all[|events|].now == now;
      KeyInvHolds(limits, expiration, events, key, now);
      var w := Exec(limits, expiration, events);
      AcceptsIsRule(w.store, key, LogOf(w, key), limits(key), now, now);
    }
  }

  /** Any accepted request and the one maxRequestNum accepts later are at
      least duration apart. */
  lemma AcceptsAreSpaced(limits: string -> Limit, expiration: int, events: seq<Event>, key: string, i: nat)
    requires Monotone(events) && Sound(limits(key), expiration)
    requires i + limits(key).max < |LogOf(Exec(limits, expiration, events), key)|
    ensures var log := LogOf(Exec(limits, expiration, events), key);
      log[i + limits(key).max] - log[i] >= limits(key).duration
  {
    KeyInvHolds(limits, expiration, events, key, if events == [] then 0 else events[|events| - 1].now);
  }

  /** The hypotheses are exact: the limiter follows the rule in every run if and
      only if the limit is at least one and, where a sweeper runs, the duration
      exceeds the expiration by at most one second. */
  lemma AgreesExactlyWhenSound(limits: string -> Limit, expiration: int, key: string)
    ensures AlwaysAgrees(limits, expiration, key) <==> Sound(limits(key), expiration)
  {
    if Sound(limits(key), expiration) {
      forall events, now ensures AgreesAfter(limits, expiration, events, key, now) {
        FollowsTheLog(limits, expiration, events, key, now);
      }
    } else if limits(key).max < 1 {
      // the first request on a key is accepted whatever the limit
      assert !AgreesAfter(limits, expiration, [], key, 0);
    } else {
      SweepForgets(limits, expiration, key);
    }
  }

  /** `n` requests at time 0. */
  function Burst(key: string, n: nat): seq<Event> {
    seq(n, i => Ask(key, 0))
  }

  lemma {:induction false} BurstIsAccepted(limits: string -> Limit, expiration: int, key: string, n: nat)
    requires n <= limits(key).max
    ensures var w := Exec(limits, expiration, Burst(key, n));
      && QueueOf(w.store, key) == LogOf(w, key) == seq(n, i => 0)
      && (key in w.store <==> n > 0)
  {
    if n > 0 {
      BurstIsAccepted(limits, expiration, key, n - 1);
      assert Burst(key, n)[..n - 1] == Burst(key, n - 1);
    }
  }

  /** A sweep after the burst has expired drops the queue but not the history. */
  lemma BurstIsSwept(limits: string -> Limit, expiration: int, key: string, n: nat, now: int)
    requires 1 <= n <= limits(key).max && 0 < expiration < now
    ensures var w := Exec(limits, expiration, Burst(key, n) + [Sweep(now)]);
      key !in w.store && LogOf(w, key) == seq(n, i => 0)
  {
    var events := Burst(key, n) + [Sweep(now)];
    BurstIsAccepted(limits, expiration, key, n);
    assert events[..|events| - 1] == Burst(key, n);
    assert QueueOf(Exec(limits, expiration, Burst(key, n)).store, key)[n - 1] == 0;
  }

  /** With a longer duration the sweep forgets accepted requests that still
      count: the limit's worth at time 0, a sweep at expiration + 1, and one
      more is accepted. */
  lemma SweepForgets(limits: string -> Limit, expiration: int, key: string)
    requires limits(key).max >= 1 && expiration > 0 && limits(key).duration > expiration + 1
    ensures exists events, now :: !AgreesAfter(limits, expiration, events, key, now)
  {
    var n, now := limits(key).max, expiration + 1;
    var events := Burst(key, n) + [Sweep(now)];
    var zeros := seq(n, i => 0);
    RecentIsTail(zeros, n, limits(key).duration, now);
    BurstIsSwept(limits, expiration, key, n, now);
    assert Monotone(events + [Ask(key, now)]);
    assert !AgreesAfter(limits, expiration, events, key, now);
  }
}
