/** The fixed-window limiter of the OPC UA facade, and what it bounds in every sliding window. */
module RateLimiter {
  import opened Common

  const WINDOW: real := 60.0

  datatype RateCounter = RateCounter(windowStartedAt: real, count: int)

  /** `_allow`: the first request of a window is granted whatever the limit. */
  function AllowStep(counters: map<string, RateCounter>, key: string, now: real, limit: int)
    : (map<string, RateCounter>, bool)
  {
    if key !in counters || now - counters[key].windowStartedAt >= WINDOW then
      (counters[key := RateCounter(now, 1)], true)
    else
      var c := counters[key].(count := counters[key].count + 1);
      (counters[key := c], c.count <= limit)
  }

  class Limiter {
    var sessionLimits: map<string, RateCounter>
    var enrollmentLimits: map<string, RateCounter>
    const sessionLimit: int
    const enrollmentLimit: int

    constructor (sessionLimit: int, enrollmentLimit: int)
      ensures sessionLimits == map[] && enrollmentLimits == map[]
      ensures this.sessionLimit == sessionLimit && this.enrollmentLimit == enrollmentLimit
    {
      sessionLimits, enrollmentLimits := map[], map[];
      this.sessionLimit, this.enrollmentLimit := sessionLimit, enrollmentLimit;
    }

    /** Sessions without an id share the key "anonymous". */
    method AllowRequest(sessionId: string, now: real) returns (allowed: bool)
      modifies this`sessionLimits
      ensures (sessionLimits, allowed)
           == AllowStep(old(sessionLimits), if sessionId == "" then "anonymous" else sessionId, now, sessionLimit)
    {
      var key := if sessionId == "" then "anonymous" else sessionId;
      sessionLimits, allowed := Allow(sessionLimits, key, now, sessionLimit);
    }

    method AllowEnrollment(applicationUri: string, sessionId: string, now: real) returns (allowed: bool)
      modifies this`enrollmentLimits
      ensures (enrollmentLimits, allowed)
           == AllowStep(old(enrollmentLimits),
                        if applicationUri != "" then applicationUri
                        else if sessionId != "" then sessionId
                        else "anonymous",
                        now, enrollmentLimit)
    {
      var key := applicationUri;
      if key == "" { key := sessionId; }
      if key == "" { key := "anonymous"; }
      enrollmentLimits, allowed := Allow(enrollmentLimits, key, now, enrollmentLimit);
    }

    static method Allow(counters: map<string, RateCounter>, key: string, now: real, limit: int)
      returns (updated: map<string, RateCounter>, allowed: bool)
      ensures (updated, allowed) == AllowStep(counters, key, now, limit)
    {
      updated := counters;
      if key !in counters || now - counters[key].windowStartedAt >= WINDOW {
        updated := updated[key := RateCounter(now, 1)];
        return updated, true;
      }
      var counter := counters[key];
      counter := counter.(count := counter.count + 1);
      updated := updated[key := counter];
      allowed := counter.count <= limit;
    }
  }

  // ---- whole histories ----

  datatype Request = Request(key: string, at: real)

  function Counters(history: seq<Request>, limit: int): map<string, RateCounter> {
    if history == [] then map[]
    else
      var last := history[|history| - 1];
      AllowStep(Counters(history[..|history| - 1], limit), last.key, last.at, limit).0
  }

  /** Whether the last request of the history was granted. */
  predicate GrantedLast(history: seq<Request>, limit: int)
    requires history != []
  {
    var last := history[|history| - 1];
    AllowStep(Counters(history[..|history| - 1], limit), last.key, last.at, limit).1
  }

  predicate Nondecreasing(history: seq<Request>) {
    forall i, j :: 0 <= i < j < |history| ==> history[i].at <= history[j].at
  }

  /** Requests of a key with a time in [from, from + 60). */
  function RequestsIn(history: seq<Request>, key: string, from: real): nat {
    if history == [] then 0
    else
      var last := history[|history| - 1];
      RequestsIn(history[..|history| - 1], key, from)
      + (if last.key == key && from <= last.at < from + WINDOW then 1 else 0)
  }

  /** Those of them that were granted. */
  function GrantsIn(history: seq<Request>, key: string, from: real, limit: int): nat {
    if history == [] then 0
    else
      var last := history[|history| - 1];
      GrantsIn(history[..|history| - 1], key, from, limit)
      + (if last.key == key && from <= last.at < from + WINDOW && GrantedLast(history, limit) then 1 else 0)
  }

  function Cap(limit: int): int { if limit >= 1 then limit else 1 }

  /**
   * Grants of a key in an interval so far, by where the key's current window
   * started: before the interval (then its first grant lies outside), inside
   * it, or after it.
   */
  function GrantBound(counters: map<string, RateCounter>, key: string, from: real, limit: int): int {
    if key !in counters then 0
    else
      var c := counters[key];
      if c.windowStartedAt < from then Min(c.count, Cap(limit)) - 1
      else if c.windowStartedAt < from + WINDOW then Cap(limit) - 1 + Min(c.count, Cap(limit))
      else 2 * Cap(limit) - 1
  }

  lemma PrefixNondecreasing(history: seq<Request>)
    requires history != [] && Nondecreasing(history)
    ensures Nondecreasing(history[..|history| - 1])
    ensures |history| > 1 ==> history[|history| - 2].at <= history[|history| - 1].at
  {
  }

  lemma {:induction false} WindowStartIsPast(history: seq<Request>, key: string, limit: int)
    requires Nondecreasing(history) && key in Counters(history, limit)
    ensures history != [] && Counters(history, limit)[key].count >= 1
    ensures Counters(history, limit)[key].windowStartedAt <= history[|history| - 1].at
  {
    PrefixNondecreasing(history);
    var init := history[..|history| - 1];
    if key in Counters(init, limit) {
      WindowStartIsPast(init, key, limit);
    }
  }

  lemma {:induction false} GrantsWithinBound(history: seq<Request>, key: string, from: real, limit: int)
    requires Nondecreasing(history)
    ensures GrantsIn(history, key, from, limit) <= GrantBound(Counters(history, limit), key, from, limit)
    ensures GrantBound(Counters(history, limit), key, from, limit) <= 2 * Cap(limit) - 1
  {
    if history != [] {
      PrefixNondecreasing(history);
      var init := history[..|history| - 1];
      GrantsWithinBound(init, key, from, limit);
      if key in Counters(init, limit) {
        WindowStartIsPast(init, key, limit);
        assert init[|init| - 1] == history[|history| - 2];
        assert Counters(init, limit)[key].windowStartedAt <= history[|history| - 1].at;
      }
      if history[|history| - 1].at < from {
        NoGrantsBefore(init, key, from, limit);
      }
      GrantStep(history, key, from, limit);
    }
  }

  lemma {:induction false} NoGrantsBefore(history: seq<Request>, key: string, from: real, limit: int)
    requires Nondecreasing(history) && (history != [] ==> history[|history| - 1].at < from)
    ensures GrantsIn(history, key, from, limit) == 0
  {
    if history != [] {
      PrefixNondecreasing(history);
      var init := history[..|history| - 1];
      assert init != [] ==> init[|init| - 1] == history[|history| - 2];
      NoGrantsBefore(init, key, from, limit);
    }
  }

  /** One request adds at most its own grant to the interval's count and to the bound. */
  lemma GrantStep(history: seq<Request>, key: string, from: real, limit: int)
    requires history != []
    requires var init := history[..|history| - 1];
             && GrantsIn(init, key, from, limit) <= GrantBound(Counters(init, limit), key, from, limit)
             && (history[|history| - 1].at < from ==> GrantsIn(init, key, from, limit) == 0)
             && (key in Counters(init, limit) ==>
                   && Counters(init, limit)[key].count >= 1
                   && Counters(init, limit)[key].windowStartedAt <= history[|history| - 1].at)
    ensures GrantsIn(history, key, from, limit) <= GrantBound(Counters(history, limit), key, from, limit)
  {
    var init, last := history[..|history| - 1], history[|history| - 1];
    var before, after := Counters(init, limit), Counters(history, limit);
    if last.key == key {
      assert GrantedLast(history, limit) == AllowStep(before, key, last.at, limit).1;
    } else {
      assert SameCounter(before, after, key);
    }
  }

  /**
   * A fixed window is a sliding bound of nearly twice the limit: in every
   * half-open interval of sixty seconds a key gets at most
   * 2 * max(1, limit) - 1 grants.
   */
  lemma SlidingWindowBound(history: seq<Request>, key: string, from: real, limit: int)
    requires Nondecreasing(history)
    ensures GrantsIn(history, key, from, limit) <= 2 * (if limit >= 1 then limit else 1) - 1
  {
    GrantsWithinBound(history, key, from, limit);
  }

  /** The history followed by `n` equal requests. */
  function Burst(history: seq<Request>, r: Request, n: nat): seq<Request> {
    if n == 0 then history else Burst(history, r, n - 1) + [r]
  }

  /** One request at 0 opens a window; `n` more just before it ends. */
  function LateBurst(key: string, n: nat): seq<Request> {
    Burst([Request(key, 0.0)], Request(key, 59.0), n)
  }

  /** Then `m` requests at 60, in the next window. */
  function TwoBursts(key: string, limit: nat, m: nat): seq<Request>
    requires limit >= 1
  {
    Burst(LateBurst(key, limit - 1), Request(key, 60.0), m)
  }

  lemma AppendNondecreasing(history: seq<Request>, r: Request)
    requires Nondecreasing(history) && (history != [] ==> history[|history| - 1].at <= r.at)
    ensures Nondecreasing(history + [r])
  {
  }

  /** The key's window began at `start` with `count` requests so far; `grants` of them count from 59 on. */
  predicate Stands(history: seq<Request>, key: string, limit: int, start: real, count: int, grants: int, last: real) {
    && Nondecreasing(history) && (history != [] ==> history[|history| - 1].at <= last)
    && key in Counters(history, limit) && Counters(history, limit)[key] == RateCounter(start, count)
    && GrantsIn(history, key, 59.0, limit) == grants
  }

  /** A request that is granted, in the running window or in a new one. */
  lemma GrantOneMore(history: seq<Request>, key: string, limit: int, start: real, count: int, grants: int, last: real,
                     at: real)
    requires Stands(history, key, limit, start, count, grants, last) && last <= at && 59.0 <= at < 119.0
    ensures at - start >= WINDOW ==> Stands(history + [Request(key, at)], key, limit, at, 1, grants + 1, at)
    ensures at - start < WINDOW && count < limit ==>
              Stands(history + [Request(key, at)], key, limit, start, count + 1, grants + 1, at)
  {
    AppendNondecreasing(history, Request(key, at));
    assert (history + [Request(key, at)])[..|history|] == history;
  }

  lemma FirstRequest(key: string, limit: int)
    ensures Stands([Request(key, 0.0)], key, limit, 0.0, 1, 0, 59.0)
  {
    assert [Request(key, 0.0)][..0] == [];
  }

  lemma {:induction false} LateBurstIsGranted(key: string, limit: nat, n: nat)
    requires n < limit
    ensures Stands(LateBurst(key, n), key, limit, 0.0, n + 1, n, 59.0)
  {
    hide Stands;
    if n == 0 {
      FirstRequest(key, limit);
    } else {
      LateBurstIsGranted(key, limit, n - 1);
      GrantOneMore(LateBurst(key, n - 1), key, limit, 0.0, n, n - 1, 59.0, 59.0);
    }
  }

  lemma {:induction false} TwoBurstsAreGranted(key: string, limit: nat, m: nat)
    requires 1 <= m <= limit
    ensures Stands(TwoBursts(key, limit, m), key, limit, 60.0, m, limit - 1 + m, 60.0)
  {
    hide Stands;
    if m == 1 {
      LateBurstIsGranted(key, limit, limit - 1);
      GrantOneMore(LateBurst(key, limit - 1), key, limit, 0.0, limit, limit - 1, 59.0, 60.0);
      assert TwoBursts(key, limit, 0) == LateBurst(key, limit - 1);
    } else {
      TwoBurstsAreGranted(key, limit, m - 1);
      GrantOneMore(TwoBursts(key, limit, m - 1), key, limit, 60.0, m - 1, limit + m - 2, 60.0, 60.0);
    }
  }

  /**
   * And for every limit the bound is reached: one request at 0, limit - 1 at 59
   * and limit at 60 give 2 * limit - 1 grants in [59, 119).
   */
  lemma BoundIsReached(key: string, limit: nat)
    requires limit >= 1
    ensures var h := TwoBursts(key, limit, limit);
            Nondecreasing(h) && GrantsIn(h, key, 59.0, limit) == 2 * limit - 1
  {
    TwoBurstsAreGranted(key, limit, limit);
  }

  /** The counter counts the requests of the key since its window started, all within sixty seconds of it. */
  lemma {:induction false} CounterCountsWindow(history: seq<Request>, key: string, limit: int)
    requires Nondecreasing(history) && key in Counters(history, limit)
    ensures var c := Counters(history, limit)[key];
            1 <= c.count <= RequestsIn(history, key, c.windowStartedAt)
  {
    PrefixNondecreasing(history);
    var init := history[..|history| - 1];
    if key in Counters(init, limit) {
      WindowStartIsPast(init, key, limit);
      CounterCountsWindow(init, key, limit);
    }
  }

  predicate InWindow(from: real, at: real) { from <= at < from + WINDOW }

  /** A refused request proves that its key exceeded the limit in some sixty-second interval containing it. */
  lemma RefusalMeansExcess(history: seq<Request>, key: string, limit: int)
    requires history != [] && history[|history| - 1].key == key && Nondecreasing(history)
    requires !GrantedLast(history, limit)
    ensures exists from :: InWindow(from, history[|history| - 1].at) && RequestsIn(history, key, from) > limit
  {
    CounterCountsWindow(history, key, limit);
    var start := Counters(history, limit)[key].windowStartedAt;
    PrefixNondecreasing(history);
    WindowStartIsPast(history[..|history| - 1], key, limit);
    assert InWindow(start, history[|history| - 1].at) && RequestsIn(history, key, start) > limit;
  }

  /** A key that keeps to the limit in every sixty-second interval is never refused. */
  lemma CompliantNeverRefused(history: seq<Request>, key: string, limit: int)
    requires history != [] && history[|history| - 1].key == key && Nondecreasing(history)
    requires forall from :: RequestsIn(history, key, from) <= limit
    ensures GrantedLast(history, limit)
  {
    if !GrantedLast(history, limit) {
      RefusalMeansExcess(history, key, limit);
      assert false;
    }
  }

  /** The requests of one key. */
  function OnlyKey(history: seq<Request>, key: string): seq<Request> {
    if history == [] then []
    else
      var mine := OnlyKey(history[..|history| - 1], key);
      if history[|history| - 1].key == key then mine + [history[|history| - 1]] else mine
  }

  predicate SameCounter(a: map<string, RateCounter>, b: map<string, RateCounter>, key: string) {
    (key in a <==> key in b) && (key in a ==> a[key] == b[key])
  }

  lemma StepUsesOwnCounter(a: map<string, RateCounter>, b: map<string, RateCounter>, key: string, now: real, limit: int)
    requires SameCounter(a, b, key)
    ensures SameCounter(AllowStep(a, key, now, limit).0, AllowStep(b, key, now, limit).0, key)
    ensures AllowStep(a, key, now, limit).1 == AllowStep(b, key, now, limit).1
  {
  }

  /** Other keys never influence a key's counter. */
  lemma {:induction false} KeysAreIndependent(history: seq<Request>, key: string, limit: int)
    ensures SameCounter(Counters(OnlyKey(history, key), limit), Counters(history, limit), key)
  {
    if history != [] {
      var init, last := history[..|history| - 1], history[|history| - 1];
      KeysAreIndependent(init, key, limit);
      if last.key == key {
        var mine := OnlyKey(init, key);
        assert (mine + [last])[..|mine|] == mine;
        StepUsesOwnCounter(Counters(mine, limit), Counters(init, limit), key, last.at, limit);
      }
    }
  }
}
