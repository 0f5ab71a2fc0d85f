/**
 * The fixed-window rate limiter: one shared map from keys to a counter and the end of its window,
 * swept of expired entries on every call. Times are in milliseconds; a request carries the two
 * readings of the clock that one call takes, the first for the sweep and the second for the decision.
 */
module RateLimit {
  import opened Arithmetic
  import opened Wrappers

  type Key = string

  datatype Metrics = Metrics(count: nat, resetTime: int)

  type Store = map<Key, Metrics>

  datatype Request = Request(key: Key, windowMs: nat, maxRequests: nat, sweepTime: int, now: int)

  /** Admitted, or refused with the Retry-After value in seconds. */
  datatype Decision = Admit | Refuse(retryAfter: nat)

  // ----- One key on its own -----

  /** The counter a request sees: the stored one, or a fresh window if there is none or it is over. */
  function Opened(entry: Option<Metrics>, now: int, windowMs: nat): Metrics {
    if entry.None? || now > entry.value.resetTime then Metrics(0, now + windowMs) else entry.value
  }

  function CountRequest(entry: Option<Metrics>, now: int, windowMs: nat): Metrics {
    var m := Opened(entry, now, windowMs);
    m.(count := m.count + 1)
  }

  /** `Math.max(1, Math.ceil(ms / 1000))` */
  function RetrySeconds(ms: int): nat {
    if ms <= 1000 then 1 else (ms + 999) / 1000
  }

  function Decide(m: Metrics, now: int, maxRequests: nat): Decision {
    if m.count > maxRequests then Refuse(RetrySeconds(m.resetTime - now)) else Admit
  }

  // ----- The limiter -----

  function Lookup(store: Store, key: Key): Option<Metrics> {
    if key in store then Some(store[key]) else None
  }

  function Sweep(store: Store, now: int): Store {
    map k | k in store && now <= store[k].resetTime :: store[k]
  }

  function StoreAfter(store: Store, r: Request): Store {
    var swept := Sweep(store, r.sweepTime);
    swept[r.key := CountRequest(Lookup(swept, r.key), r.now, r.windowMs)]
  }

  function DecisionFor(store: Store, r: Request): Decision {
    Decide(CountRequest(Lookup(Sweep(store, r.sweepTime), r.key), r.now, r.windowMs), r.now, r.maxRequests)
  }

  class RateLimiter {
    var store: Store

    constructor ()
      ensures store == map[]
    {
      store := map[];
    }

    /** `cleanupStore`: one pass over the entries, deleting those whose window is over. */
    method CleanupStore(now: int)
      modifies this
      ensures store == Sweep(old(store), now)
    {
      var pending := store.Keys;
      while pending != {}
        invariant pending <= old(store).Keys
        invariant store == map k | k in old(store) && (k in pending || now <= old(store)[k].resetTime) :: old(store)[k]
        decreases |pending|
      {
        var key :| key in pending;
        if now > store[key].resetTime {
          store := store - {key};
        }
        pending := pending - {key};
      }
    }

    method CheckRateLimit(r: Request) returns (d: Decision)
      modifies this
      ensures store == StoreAfter(old(store), r)
      ensures d == DecisionFor(old(store), r)
    {
      CleanupStore(r.sweepTime);
      var metrics: Metrics;
      if r.key !in store || r.now > store[r.key].resetTime {
        metrics := Metrics(0, r.now + r.windowMs);
      } else {
        metrics := store[r.key];
      }
      metrics := metrics.(count := metrics.count + 1);
      store := store[r.key := metrics];
      if metrics.count > r.maxRequests {
        var left := metrics.resetTime - r.now;
        return Refuse(if left <= 1000 then 1 else (left + 999) / 1000);
      }
      d := Admit;
    }
  }

  // ----- Runs -----

  function RunStore(requests: seq<Request>): Store {
    if requests == [] then map[]
    else StoreAfter(RunStore(requests[..|requests| - 1]), requests[|requests| - 1])
  }

  function Decisions(requests: seq<Request>): (ds: seq<Decision>)
    ensures |ds| == |requests|
  {
    if requests == [] then []
    else
      var earlier, r := requests[..|requests| - 1], requests[|requests| - 1];
      Decisions(earlier) + [DecisionFor(RunStore(earlier), r)]
  }

  /** Neither the two readings within a call nor those of successive calls go back. */
  predicate ClockRuns(requests: seq<Request>) {
    requests == [] ||
    var earlier, r := requests[..|requests| - 1], requests[|requests| - 1];
    && ClockRuns(earlier)
    && r.sweepTime <= r.now
    && forall q :: q in earlier ==> q.now <= r.sweepTime
  }

  // ----- Sweeping and other traffic are invisible -----

  /** The entry of `key` as a limiter that never deletes anything would hold it. */
  function KeptEntry(requests: seq<Request>, key: Key): Option<Metrics> {
    if requests == [] then None
    else
      var before, r := KeptEntry(requests[..|requests| - 1], key), requests[|requests| - 1];
      if r.key == key then Some(CountRequest(before, r.now, r.windowMs)) else before
  }

  /** The decision of the limiter that never deletes. */
  function KeptDecision(earlier: seq<Request>, r: Request): Decision {
    Decide(CountRequest(KeptEntry(earlier, r.key), r.now, r.windowMs), r.now, r.maxRequests)
  }

  /** The decision in this store if the call did not sweep. */
  function UnsweptDecision(store: Store, r: Request): Decision {
    Decide(CountRequest(Lookup(store, r.key), r.now, r.windowMs), r.now, r.maxRequests)
  }

  /**
   * For one call on any store: sweeping changes who is admitted exactly when the clock went back within
   * the call, over the end of a window that had no admission left.
   */
  lemma SweepChangesDecision(store: Store, r: Request)
    ensures DecisionFor(store, r).Admit? != UnsweptDecision(store, r).Admit? <==>
              && r.key in store && r.now <= store[r.key].resetTime < r.sweepTime
              && 1 <= r.maxRequests <= store[r.key].count
    ensures r.maxRequests >= 1 ==>
              (DecisionFor(store, r) != UnsweptDecision(store, r) <==>
                 && r.key in store && r.now <= store[r.key].resetTime < r.sweepTime
                 && r.maxRequests <= store[r.key].count)
  {
  }

  /** The latest sweep since the window of `key` was opened, as the limiter without deletion sees windows. */
  function LatestSweep(requests: seq<Request>, key: Key): Option<int> {
    if requests == [] then None
    else
      var earlier, r := requests[..|requests| - 1], requests[|requests| - 1];
      var before, latest := KeptEntry(earlier, key), LatestSweep(earlier, key);
      if before.None? || (r.key == key && r.now > before.value.resetTime) then None
      else if latest.Some? then Some(Max(latest.value, r.sweepTime))
      else Some(r.sweepTime)
  }

  /** The window of `key` was over for some sweep since it was opened. */
  predicate SweptAway(requests: seq<Request>, key: Key) {
    var entry, latest := KeptEntry(requests, key), LatestSweep(requests, key);
    entry.Some? && latest.Some? && entry.value.resetTime < latest.value
  }

  /** A request inside a window that was over for an earlier sweep, or for its own. */
  predicate Returns(earlier: seq<Request>, r: Request) {
    var entry := KeptEntry(earlier, r.key);
    && entry.Some? && r.now <= entry.value.resetTime
    && (SweptAway(earlier, r.key) || entry.value.resetTime < r.sweepTime)
  }

  predicate NeverReturns(requests: seq<Request>) {
    requests == [] ||
    var earlier, r := requests[..|requests| - 1], requests[|requests| - 1];
    NeverReturns(earlier) && !Returns(earlier, r)
  }

  /** As long as no request returns to a window swept away, that is all that is missing. */
  lemma {:induction false} StoredUnlessSwept(requests: seq<Request>, key: Key)
    requires NeverReturns(requests)
    ensures Lookup(RunStore(requests), key) == if SweptAway(requests, key) then None else KeptEntry(requests, key)
  {
    if requests != [] {
      StoredUnlessSwept(requests[..|requests| - 1], key);
    }
  }

  /**
   * In every run, whatever the clock does: up to the first request that returns to a window swept away all
   * decisions are those of a limiter that never deletes, and that request's decision is another one
   * exactly when the window had no admission left.
   */
  lemma FirstReturnDecides(earlier: seq<Request>, r: Request)
    requires NeverReturns(earlier) && r.maxRequests >= 1
    ensures DecisionFor(RunStore(earlier), r) != KeptDecision(earlier, r) <==>
              Returns(earlier, r) && KeptEntry(earlier, r.key).value.count >= r.maxRequests
  {
    StoredUnlessSwept(earlier, r.key);
  }

  /** A clock that does not go back never returns. */
  lemma {:induction false} LatestSweepBefore(requests: seq<Request>, key: Key, time: int)
    requires ClockRuns(requests) && forall q :: q in requests ==> q.now <= time
    ensures LatestSweep(requests, key).Some? ==> LatestSweep(requests, key).value <= time
  {
    if requests != [] {
      var earlier, r := requests[..|requests| - 1], requests[|requests| - 1];
      assert r in requests && forall q :: q in earlier ==> q in requests;
      LatestSweepBefore(earlier, key, time);
    }
  }

  lemma {:induction false} ClockNeverReturns(requests: seq<Request>)
    requires ClockRuns(requests)
    ensures NeverReturns(requests)
  {
    if requests != [] {
      var earlier, r := requests[..|requests| - 1], requests[|requests| - 1];
      ClockNeverReturns(earlier);
      LatestSweepBefore(earlier, r.key, r.sweepTime);
    }
  }

  /** With a clock that does not go back, the sweep changes no decision. */
  lemma SweepInvisible(earlier: seq<Request>, r: Request)
    requires ClockRuns(earlier + [r])
    ensures DecisionFor(RunStore(earlier), r) == KeptDecision(earlier, r)
  {
    assert (earlier + [r])[..|earlier|] == earlier;
    ClockNeverReturns(earlier + [r]);
    StoredUnlessSwept(earlier, r.key);
  }

  function OnlyKey(requests: seq<Request>, key: Key): seq<Request> {
    if requests == [] then []
    else
      var earlier, r := OnlyKey(requests[..|requests| - 1], key), requests[|requests| - 1];
      if r.key == key then earlier + [r] else earlier
  }

  /** The decisions about `key` among all decisions of a run. */
  function DecisionsAbout(requests: seq<Request>, key: Key): seq<Decision> {
    if requests == [] then []
    else
      var earlier, r := requests[..|requests| - 1], requests[|requests| - 1];
      if r.key == key then DecisionsAbout(earlier, key) + [DecisionFor(RunStore(earlier), r)]
      else DecisionsAbout(earlier, key)
  }

  lemma {:induction false} OnlyKeyFacts(requests: seq<Request>, key: Key)
    requires ClockRuns(requests)
    ensures ClockRuns(OnlyKey(requests, key))
    ensures forall q :: q in OnlyKey(requests, key) ==> q in requests
    ensures KeptEntry(OnlyKey(requests, key), key) == KeptEntry(requests, key)
  {
    if requests != [] {
      var earlier, r := requests[..|requests| - 1], requests[|requests| - 1];
      OnlyKeyFacts(earlier, key);
      if r.key == key {
        assert (OnlyKey(earlier, key) + [r])[..|OnlyKey(earlier, key)|] == OnlyKey(earlier, key);
      }
    }
  }

  lemma DecisionsOneMore(earlier: seq<Request>, r: Request)
    ensures Decisions(earlier + [r]) == Decisions(earlier) + [DecisionFor(RunStore(earlier), r)]
  {
    assert (earlier + [r])[..|earlier|] == earlier;
  }

  /** Each key is treated as if its own requests were the only traffic. */
  lemma {:induction false} KeysAreIsolated(requests: seq<Request>, key: Key)
    requires ClockRuns(requests)
    ensures DecisionsAbout(requests, key) == Decisions(OnlyKey(requests, key))
  {
    if requests != [] {
      var earlier, r := requests[..|requests| - 1], requests[|requests| - 1];
      KeysAreIsolated(earlier, key);
      OnlyKeyFacts(requests, key);
      OnlyKeyFacts(earlier, key);
      if r.key == key {
        var own := OnlyKey(earlier, key);
        assert earlier + [r] == requests;
        SweepInvisible(earlier, r);
        SweepInvisible(own, r);
        DecisionsOneMore(own, r);
      }
    }
  }

  /** With a clock that goes back the sweep can forgive: here a request over the limit is admitted. */
  lemma SweepVisibleWhenClockGoesBack()
    ensures exists earlier, r :: DecisionFor(RunStore(earlier), r) != KeptDecision(earlier, r)
  {
    var first := Request("k", 10, 1, 0, 0);
    var again := Request("k", 10, 1, 11, 5);
    assert [first][..0] == [];
    assert RunStore([first]) == map["k" := Metrics(1, 10)];
    assert KeptEntry([first], "k") == Some(Metrics(1, 10));
    assert "k" !in Sweep(RunStore([first]), 11);
    assert DecisionFor(RunStore([first]), again) == Admit;
    assert KeptDecision([first], again).Refuse?;
  }

  // ----- How many are admitted -----

  /** The requests of `key` that are admitted at a time in the closed interval from `from` to `to`. */
  function AdmittedIn(requests: seq<Request>, key: Key, from: int, to: int): nat {
    if requests == [] then 0
    else
      var earlier, r := requests[..|requests| - 1], requests[|requests| - 1];
      AdmittedIn(earlier, key, from, to)
      + if r.key == key && from <= r.now <= to && DecisionFor(RunStore(earlier), r).Admit? then 1 else 0
  }

  predicate FixedSettings(requests: seq<Request>, key: Key, windowMs: nat, maxRequests: nat) {
    forall r :: r in requests && r.key == key ==> r.windowMs == windowMs && r.maxRequests == maxRequests
  }

  /**
   * What is known about the count after a run that ended at `time`, by the position of the current
   * window's start: before the interval the opening request is not counted; inside it, no
   * earlier window contributes its opening request; past it, nothing can be added any more.
   */
  ghost predicate CountBound(count: nat, entry: Option<Metrics>, windowMs: nat, maxRequests: nat, from: int, to: int,
                             time: int) {
    if entry.None? then count == 0
    else
      var start, used := entry.value.resetTime - windowMs, Min(entry.value.count, maxRequests);
      && 1 <= entry.value.count && start <= time
      && (time < from ==> count == 0)
      && (if start < from then count <= used - 1
          else if start <= to then count <= maxRequests - 1 + used
          else count <= 2 * maxRequests - 1)
  }

  lemma CountBoundStep(count: nat, entry: Option<Metrics>, windowMs: nat, maxRequests: nat, from: int, to: int,
                       time: int, now: int)
    requires maxRequests >= 1 && to <= from + windowMs && time <= now
    requires CountBound(count, entry, windowMs, maxRequests, from, to, time)
    ensures var m := CountRequest(entry, now, windowMs);
            var admitted := from <= now <= to && Decide(m, now, maxRequests).Admit?;
            CountBound(if admitted then count + 1 else count, Some(m), windowMs, maxRequests, from, to, now)
  {
  }

  lemma CountBoundLater(count: nat, entry: Option<Metrics>, windowMs: nat, maxRequests: nat, from: int, to: int,
                        time: int, later: int)
    requires CountBound(count, entry, windowMs, maxRequests, from, to, time) && time <= later
    ensures CountBound(count, entry, windowMs, maxRequests, from, to, later)
  {
  }

  lemma {:induction false} CountStaysBounded(requests: seq<Request>, key: Key, windowMs: nat, maxRequests: nat,
                                             from: int, to: int, time: int)
    requires ClockRuns(requests) && FixedSettings(requests, key, windowMs, maxRequests)
    requires maxRequests >= 1 && to <= from + windowMs
    requires forall q :: q in requests ==> q.now <= time
    ensures CountBound(AdmittedIn(requests, key, from, to), KeptEntry(requests, key), windowMs, maxRequests,
                       from, to, time)
  {
    if requests != [] {
      var earlier, r := requests[..|requests| - 1], requests[|requests| - 1];
      assert r in requests && forall q :: q in earlier ==> q in requests;
      assert earlier + [r] == requests;
      var count, entry := AdmittedIn(earlier, key, from, to), KeptEntry(earlier, key);
      CountStaysBounded(earlier, key, windowMs, maxRequests, from, to, r.sweepTime);
      if r.key == key {
        SweepInvisible(earlier, r);
        CountBoundStep(count, entry, windowMs, maxRequests, from, to, r.sweepTime, r.now);
        CountBoundLater(AdmittedIn(requests, key, from, to), KeptEntry(requests, key), windowMs, maxRequests,
                        from, to, r.now, time);
      } else {
        CountBoundLater(count, entry, windowMs, maxRequests, from, to, r.sweepTime, time);
      }
    }
  }

  lemma LastIsLatest(requests: seq<Request>)
    requires ClockRuns(requests) && requests != []
    ensures forall q :: q in requests ==> q.now <= requests[|requests| - 1].now
  {
    var earlier, r := requests[..|requests| - 1], requests[|requests| - 1];
    assert requests == earlier + [r];
  }

  /** A limit of zero admits nothing. */
  lemma {:induction false} ZeroAdmitsNothing(requests: seq<Request>, key: Key, windowMs: nat, from: int, to: int)
    requires FixedSettings(requests, key, windowMs, 0)
    ensures AdmittedIn(requests, key, from, to) == 0
  {
    if requests != [] {
      assert requests[|requests| - 1] in requests;
      assert forall q :: q in requests[..|requests| - 1] ==> q in requests;
      ZeroAdmitsNothing(requests[..|requests| - 1], key, windowMs, from, to);
    }
  }

  /**
   * Over every run, a key is admitted at most 2 * maxRequests - 1 times in any closed interval of
   * length windowMs, and not at all for a limit of 0: two windows can touch the interval, but the opening
   * request of the earlier one cannot lie in it as well.
   */
  lemma AdmissionBound(requests: seq<Request>, key: Key, windowMs: nat, maxRequests: nat, from: int)
    requires ClockRuns(requests) && FixedSettings(requests, key, windowMs, maxRequests)
    ensures AdmittedIn(requests, key, from, from + windowMs) <= Max(0, 2 * maxRequests - 1)
  {
    if maxRequests == 0 {
      ZeroAdmitsNothing(requests, key, windowMs, from, from + windowMs);
    } else if requests != [] {
      LastIsLatest(requests);
      CountStaysBounded(requests, key, windowMs, maxRequests, from, from + windowMs, requests[|requests| - 1].now);
    }
  }

  /** The requests of `key`, admitted or not, from time `from` on. */
  function ArrivedSince(requests: seq<Request>, key: Key, from: int): nat {
    if requests == [] then 0
    else
      ArrivedSince(requests[..|requests| - 1], key, from)
      + if requests[|requests| - 1].key == key && from <= requests[|requests| - 1].now then 1 else 0
  }

  /** No request of `key` is past its window, whose start is not in the future. */
  ghost predicate TimesFit(requests: seq<Request>, key: Key, windowMs: nat, entry: Option<Metrics>) {
    if entry.None? then forall q :: q in requests ==> q.key != key
    else
      && requests != []
      && entry.value.resetTime - windowMs <= requests[|requests| - 1].now
      && forall q :: q in requests && q.key == key ==> q.now <= entry.value.resetTime
  }

  lemma TimesFitStep(earlier: seq<Request>, r: Request, key: Key, windowMs: nat, entry: Option<Metrics>)
    requires TimesFit(earlier, key, windowMs, entry) && forall q :: q in earlier ==> q.now <= r.now
    requires r.key == key ==> r.windowMs == windowMs
    ensures TimesFit(earlier + [r], key, windowMs,
                     if r.key == key then Some(CountRequest(entry, r.now, r.windowMs)) else entry)
  {
    assert earlier != [] ==> earlier[|earlier| - 1] in earlier;
  }

  lemma {:induction false} EntryTimes(requests: seq<Request>, key: Key, windowMs: nat, maxRequests: nat)
    requires ClockRuns(requests) && FixedSettings(requests, key, windowMs, maxRequests)
    ensures TimesFit(requests, key, windowMs, KeptEntry(requests, key))
  {
    if requests != [] {
      var earlier, r := requests[..|requests| - 1], requests[|requests| - 1];
      assert r in requests && forall q :: q in earlier ==> q in requests;
      assert requests == earlier + [r];
      EntryTimes(earlier, key, windowMs, maxRequests);
      TimesFitStep(earlier, r, key, windowMs, KeptEntry(earlier, key));
    }
  }

  /** Requests of other keys and requests before `from` do not count. */
  lemma {:induction false} NothingOfKey(requests: seq<Request>, key: Key, from: int, to: int)
    requires forall q :: q in requests && q.key == key ==> q.now < from
    ensures AdmittedIn(requests, key, from, to) == ArrivedSince(requests, key, from) == 0
  {
    if requests != [] {
      assert requests[|requests| - 1] in requests;
      assert forall q :: q in requests[..|requests| - 1] ==> q in requests;
      NothingOfKey(requests[..|requests| - 1], key, from, to);
    }
  }

  /**
   * Within each window the limiter is exact: of the requests that arrived since the window opened,
   * the first maxRequests were admitted and all others refused.
   */
  lemma {:induction false} WindowIsExact(requests: seq<Request>, key: Key, windowMs: nat, maxRequests: nat)
    requires ClockRuns(requests) && FixedSettings(requests, key, windowMs, maxRequests)
    requires KeptEntry(requests, key).Some?
    ensures var entry := KeptEntry(requests, key).value;
            var start := entry.resetTime - windowMs;
            && entry.count == ArrivedSince(requests, key, start)
            && AdmittedIn(requests, key, start, entry.resetTime) == Min(entry.count, maxRequests)
  {
    var earlier, r := requests[..|requests| - 1], requests[|requests| - 1];
    assert r in requests && forall q :: q in earlier ==> q in requests;
    assert requests == earlier + [r];
    var before := KeptEntry(earlier, key);
    EntryTimes(earlier, key, windowMs, maxRequests);
    if r.key != key {
      WindowIsExact(earlier, key, windowMs, maxRequests);
    } else {
      SweepInvisible(earlier, r);
      if before.None? || r.now > before.value.resetTime {
        NothingOfKey(earlier, key, r.now, r.now + windowMs);
      } else {
        WindowIsExact(earlier, key, windowMs, maxRequests);
      }
    }
  }

  // ----- The bound is reached -----

  /** `run` followed by `n` requests of `key` at time `now`. */
  function Repeat(run: seq<Request>, key: Key, windowMs: nat, maxRequests: nat, now: int, n: nat): seq<Request> {
    if n == 0 then run
    else Repeat(run, key, windowMs, maxRequests, now, n - 1) + [Request(key, windowMs, maxRequests, now, now)]
  }

  /**
   * One request at time 0, maxRequests - 1 at the end of its window, and maxRequests a millisecond
   * later, in the next window.
   */
  function Burst(key: Key, windowMs: nat, maxRequests: nat): seq<Request>
    requires maxRequests >= 1
  {
    var start := [Request(key, windowMs, maxRequests, 0, 0)];
    var late := Repeat(start, key, windowMs, maxRequests, windowMs, maxRequests - 1);
    Repeat(late, key, windowMs, maxRequests, windowMs + 1, maxRequests)
  }

  /** A run of requests of one key that ends at `time` with this entry and this count. */
  ghost predicate BurstState(run: seq<Request>, key: Key, windowMs: nat, maxRequests: nat,
                             entry: Metrics, count: nat, time: int)
  {
    && ClockRuns(run) && FixedSettings(run, key, windowMs, maxRequests)
    && (forall q :: q in run ==> q.now <= time)
    && KeptEntry(run, key) == Some(entry)
    && AdmittedIn(run, key, 1, windowMs + 1) == count
  }

  lemma BurstStep(run: seq<Request>, key: Key, windowMs: nat, maxRequests: nat, entry: Metrics, after: Metrics,
                  count: nat, time: int, now: int)
    requires BurstState(run, key, windowMs, maxRequests, entry, count, time) && time <= now
    requires 1 <= now <= windowMs + 1
    requires after == CountRequest(Some(entry), now, windowMs) && after.count <= maxRequests
    ensures BurstState(run + [Request(key, windowMs, maxRequests, now, now)], key, windowMs, maxRequests,
                       after, count + 1, now)
  {
    var r := Request(key, windowMs, maxRequests, now, now);
    assert (run + [r])[..|run|] == run;
    SweepInvisible(run, r);
  }

  lemma BurstStart(key: Key, windowMs: nat, maxRequests: nat)
    requires windowMs >= 1
    ensures BurstState([Request(key, windowMs, maxRequests, 0, 0)], key, windowMs, maxRequests,
                       Metrics(1, windowMs), 0, windowMs)
  {
    assert [Request(key, windowMs, maxRequests, 0, 0)][..0] == [];
  }

  lemma {:induction false} RepeatFacts(run: seq<Request>, key: Key, windowMs: nat, maxRequests: nat, entry: Metrics,
                                       first: Metrics, count: nat, time: int, now: int, n: nat)
    requires BurstState(run, key, windowMs, maxRequests, entry, count, time)
    requires time <= now && 1 <= now <= windowMs + 1 && n >= 1
    requires first == CountRequest(Some(entry), now, windowMs) && first.count + n - 1 <= maxRequests
    requires now <= first.resetTime
    ensures BurstState(Repeat(run, key, windowMs, maxRequests, now, n), key, windowMs, maxRequests,
                       Metrics(first.count + n - 1, first.resetTime), count + n, now)
  {
    var shorter := Repeat(run, key, windowMs, maxRequests, now, n - 1);
    if n == 1 {
      assert shorter == run;
      BurstStep(run, key, windowMs, maxRequests, entry, first, count, time, now);
    } else {
      RepeatFacts(run, key, windowMs, maxRequests, entry, first, count, time, now, n - 1);
      BurstStep(shorter, key, windowMs, maxRequests,
                Metrics(first.count + n - 2, first.resetTime), Metrics(first.count + n - 1, first.resetTime),
                count + n - 1, now, now);
    }
  }

  /** For every limit and window some run is admitted 2 * maxRequests - 1 times within windowMs. */
  lemma AdmissionBoundTight(key: Key, windowMs: nat, maxRequests: nat)
    requires windowMs >= 1 && maxRequests >= 1
    ensures var run := Burst(key, windowMs, maxRequests);
            && ClockRuns(run) && FixedSettings(run, key, windowMs, maxRequests)
            && AdmittedIn(run, key, 1, 1 + windowMs) == 2 * maxRequests - 1
  {
    var start := [Request(key, windowMs, maxRequests, 0, 0)];
    var late := Repeat(start, key, windowMs, maxRequests, windowMs, maxRequests - 1);
    BurstStart(key, windowMs, maxRequests);
    if maxRequests > 1 {
      RepeatFacts(start, key, windowMs, maxRequests, Metrics(1, windowMs), Metrics(2, windowMs),
                  0, windowMs, windowMs, maxRequests - 1);
    }
    RepeatFacts(late, key, windowMs, maxRequests, Metrics(maxRequests, windowMs), Metrics(1, 2 * windowMs + 1),
                maxRequests - 1, windowMs, windowMs + 1, maxRequests);
  }

  // ----- Retry-After -----

  lemma {:induction false} OthersKeepEntry(requests: seq<Request>, others: seq<Request>, key: Key)
    requires forall q :: q in others ==> q.key != key
    ensures KeptEntry(requests + others, key) == KeptEntry(requests, key)
    decreases |others|
  {
    if others == [] {
      assert requests + others == requests;
    } else {
      assert others[|others| - 1] in others;
      assert (requests + others)[..|requests + others| - 1] == requests + others[..|others| - 1];
      OthersKeepEntry(requests, others[..|others| - 1], key);
    }
  }

  lemma {:induction false} ClockPrefix(requests: seq<Request>, more: seq<Request>)
    requires ClockRuns(requests + more)
    ensures ClockRuns(requests)
    decreases |more|
  {
    if more == [] {
      assert requests + more == requests;
    } else {
      assert (requests + more)[..|requests + more| - 1] == requests + more[..|more| - 1];
      ClockPrefix(requests, more[..|more| - 1]);
    }
  }

  /** A counted request is inside the window it is counted in. */
  lemma WindowNotOver(earlier: seq<Request>, r: Request)
    ensures KeptEntry(earlier + [r], r.key).Some?
    ensures r.now <= KeptEntry(earlier + [r], r.key).value.resetTime
    ensures KeptEntry(earlier + [r], r.key) == Some(CountRequest(KeptEntry(earlier, r.key), r.now, r.windowMs))
  {
    assert (earlier + [r])[..|earlier|] == earlier;
  }

  /** Both decisions in terms of the entry that the refused request left behind. */
  lemma SilentKey(earlier: seq<Request>, refused: Request, others: seq<Request>, next: Request)
    requires ClockRuns(earlier + [refused] + others + [next])
    requires next.key == refused.key && forall q :: q in others ==> q.key != refused.key
    ensures var entry := KeptEntry(earlier + [refused], refused.key);
            && entry.Some? && refused.now <= entry.value.resetTime
            && DecisionFor(RunStore(earlier), refused) == Decide(entry.value, refused.now, refused.maxRequests)
            && DecisionFor(RunStore(earlier + [refused] + others), next)
               == Decide(CountRequest(entry, next.now, next.windowMs), next.now, next.maxRequests)
  {
    var upto := earlier + [refused];
    ClockPrefix(upto + others, [next]);
    ClockPrefix(upto, others);
    SweepInvisible(earlier, refused);
    SweepInvisible(upto + others, next);
    OthersKeepEntry(upto, others, refused.key);
    WindowNotOver(earlier, refused);
  }

  /** Retry-After is the least positive number of seconds that covers the rest of the window. */
  lemma RetrySecondsIsLeast(ms: int, seconds: nat)
    ensures RetrySeconds(ms) <= seconds <==> 1 <= seconds && ms <= 1000 * seconds
  {
  }

  lemma RetryArithmetic(entry: Metrics, refused: int, next: int, windowMs: nat, maxRequests: nat)
    requires entry.count > maxRequests >= 1 && refused <= entry.resetTime
    ensures var wait := RetrySeconds(entry.resetTime - refused);
            var admitted := Decide(CountRequest(Some(entry), next, windowMs), next, maxRequests).Admit?;
            && (admitted <==> next > entry.resetTime)
            && (next > refused + 1000 * wait ==> admitted)
            && (next == refused + 1000 * wait ==>
                  (admitted <==> entry.resetTime == refused || (entry.resetTime - refused) % 1000 != 0))
  {
  }

  /**
   * A refused key that then stays silent is admitted exactly when its next request comes after the
   * end of the window. Waiting longer than Retry-After always reaches that point; waiting for exactly
   * Retry-After misses it when the rest of the window was a positive whole number of seconds.
   */
  lemma RetryAfterHonoured(earlier: seq<Request>, refused: Request, others: seq<Request>, next: Request)
    requires ClockRuns(earlier + [refused] + others + [next])
    requires forall q :: q in others ==> q.key != refused.key
    requires next.key == refused.key && next.windowMs == refused.windowMs
    requires next.maxRequests == refused.maxRequests >= 1
    requires DecisionFor(RunStore(earlier), refused).Refuse?
    ensures var wait := DecisionFor(RunStore(earlier), refused).retryAfter;
            var end := KeptEntry(earlier + [refused], refused.key).value.resetTime;
            var admitted := DecisionFor(RunStore(earlier + [refused] + others), next).Admit?;
            && (admitted <==> next.now > end)
            && (next.now > refused.now + 1000 * wait ==> admitted)
            && (next.now == refused.now + 1000 * wait ==>
                  (admitted <==> end == refused.now || (end - refused.now) % 1000 != 0))
  {
    SilentKey(earlier, refused, others, next);
    RetryArithmetic(KeptEntry(earlier + [refused], refused.key).value, refused.now, next.now,
                    refused.windowMs, refused.maxRequests);
  }
}
