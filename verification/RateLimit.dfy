// The in-process request limiter: a fixed window per key, opened by the first request that finds
// none open.
module RateLimit {
  import opened Options
  import opened SlidingLog

  datatype Bucket = Bucket(count: int, resetAt: int)

  type Buckets = map<string, Bucket>

  datatype Rule = Rule(limit: int, windowMs: int)

  datatype Request = Request(key: string, rule: Rule, now: int)

  datatype Verdict = Allowed | Limited(retryAfterSeconds: int)

  /** Seconds rounded up. */
  function CeilSeconds(ms: int): int {
    -((-ms) / 1000)
  }

  datatype Turn = Turn(bucket: Bucket, verdict: Verdict)

  /** What a request makes of its key's bucket. */
  function Count(current: Option<Bucket>, rule: Rule, now: int): Turn {
    if current.None? || current.value.resetAt <= now then Turn(Bucket(1, now + rule.windowMs), Allowed)
    else
      var bucket := current.value.(count := current.value.count + 1);
      Turn(bucket, if bucket.count > rule.limit then Limited(CeilSeconds(bucket.resetAt - now)) else Allowed)
  }

  function Find(buckets: Buckets, key: string): Option<Bucket> {
    if key in buckets then Some(buckets[key]) else None
  }

  // ---- the service --------------------------------------------------------------------

  class RateLimitService {
    var buckets: Buckets

    constructor ()
      ensures buckets == map[]
    {
      buckets := map[];
    }

    method AssertAllowed(request: Request) returns (verdict: Verdict)
      modifies this
      ensures var turn := Count(Find(old(buckets), request.key), request.rule, request.now);
              verdict == turn.verdict && buckets == old(buckets)[request.key := turn.bucket]
    {
      var now, rule := request.now, request.rule;
      if request.key !in buckets || buckets[request.key].resetAt <= now {
        buckets := buckets[request.key := Bucket(1, now + rule.windowMs)];
        return Allowed;
      }
      var current := buckets[request.key];
      current := current.(count := current.count + 1);
      buckets := buckets[request.key := current];
      verdict := if current.count > rule.limit then Limited(CeilSeconds(current.resetAt - now)) else Allowed;
    }
  }

  // ---- runs ---------------------------------------------------------------------------

  /** The buckets after a run of requests under any keys. */
  function BucketsAfter(requests: seq<Request>): Buckets {
    if requests == [] then map[]
    else
      var last, before := requests[|requests| - 1], BucketsAfter(requests[..|requests| - 1]);
      before[last.key := Count(Find(before, last.key), last.rule, last.now).bucket]
  }

  function VerdictOf(before: seq<Request>, request: Request): Verdict {
    Count(Find(BucketsAfter(before), request.key), request.rule, request.now).verdict
  }

  /** The requests under one key. */
  function Only(requests: seq<Request>, key: string): seq<Request> {
    if requests == [] then []
    else
      var last := requests[|requests| - 1];
      Only(requests[..|requests| - 1], key) + (if last.key == key then [last] else [])
  }

  lemma {:induction false} BucketIsItsOwn(requests: seq<Request>, key: string)
    ensures Find(BucketsAfter(requests), key) == Find(BucketsAfter(Only(requests, key)), key)
    decreases |requests|
  {
    if requests != [] {
      var init, last := requests[..|requests| - 1], requests[|requests| - 1];
      BucketIsItsOwn(init, key);
      var only := Only(init, key);
      if last.key == key {
        assert (only + [last])[..|only|] == only;
      } else {
        assert only + [] == only;
      }
    }
  }

  /** A verdict depends on the earlier requests under the same key and on nothing else. */
  lemma KeysAreIndependent(before: seq<Request>, request: Request)
    ensures VerdictOf(before, request) == VerdictOf(Only(before, request.key), request)
  {
    BucketIsItsOwn(before, request.key);
  }

  lemma {:induction false} OnlyConcat(a: seq<Request>, b: seq<Request>, key: string)
    ensures Only(a + b, key) == Only(a, key) + Only(b, key)
    decreases |b|
  {
    if b == [] {
      assert a + b == a;
    } else {
      var init, last := b[..|b| - 1], b[|b| - 1];
      OnlyConcat(a, init, key);
      assert (a + b)[..|a + b| - 1] == a + init && (a + b)[|a + b| - 1] == last;
    }
  }

  /** So a request under another key, anywhere before, changes no verdict. */
  lemma OthersDoNotMatter(a: seq<Request>, other: Request, b: seq<Request>, request: Request)
    requires other.key != request.key
    ensures VerdictOf(a + [other] + b, request) == VerdictOf(a + b, request)
  {
    KeysAreIndependent(a + [other] + b, request);
    KeysAreIndependent(a + b, request);
    OnlyConcat(a + [other], b, request.key);
    OnlyConcat(a, [other], request.key);
    OnlyConcat(a, b, request.key);
    assert [other][..0] == [] && Only([other], request.key) == [];
    assert Only(a, request.key) + [] + Only(b, request.key) == Only(a, request.key) + Only(b, request.key);
  }

  // ---- one key, one rule --------------------------------------------------------------

  /** The times of the requests allowed under `key`. */
  function AllowedTimes(requests: seq<Request>, key: string): seq<int> {
    if requests == [] then []
    else
      var init, last := requests[..|requests| - 1], requests[|requests| - 1];
      AllowedTimes(init, key) + (if last.key == key && VerdictOf(init, last).Allowed? then [last.now] else [])
  }

  ghost predicate InOrder(requests: seq<Request>) {
    forall i, j :: 0 <= i <= j < |requests| ==> requests[i].now <= requests[j].now
  }

  ghost predicate OneRule(requests: seq<Request>, key: string, rule: Rule) {
    forall i :: 0 <= i < |requests| && requests[i].key == key ==> requests[i].rule == rule
  }

  /** How many requests a window may allow: the first one always is. */
  function PerWindow(rule: Rule): nat {
    if rule.limit < 1 then 1 else rule.limit
  }

  /** How many an interval of a window's length may see: a window's worth, and another one but for the
      request that opened it, which is always a whole window away. */
  function PerInterval(rule: Rule): nat {
    2 * PerWindow(rule) - 1
  }

  /** The open window's share of the allowed requests: its last `used`, the first at its start; and
      those more than a window's worth before them are a whole window older. */
  ghost predicate WindowInv(times: seq<int>, bucket: Option<Bucket>, rule: Rule) {
    match bucket
    case None => times == []
    case Some(b) =>
      var start, used := b.resetAt - rule.windowMs, Used(b, rule);
      && 1 <= used <= |times| && times[|times| - used] == start
      && forall i :: 0 <= i <= |times| - used - PerWindow(rule) ==> start - times[i] >= rule.windowMs
  }

  function Used(bucket: Bucket, rule: Rule): int {
    if bucket.count < PerWindow(rule) then bucket.count else PerWindow(rule)
  }

  ghost predicate Inv(times: seq<int>, bucket: Option<Bucket>, rule: Rule, now: int) {
    && Sorted(times) && (forall i :: 0 <= i < |times| ==> times[i] <= now)
    && Spaced(times, PerInterval(rule), rule.windowMs)
    && WindowInv(times, bucket, rule)
  }

  lemma OpenKeepsInv(times: seq<int>, bucket: Option<Bucket>, rule: Rule, now: int)
    requires Inv(times, bucket, rule, now) && (bucket.None? || bucket.value.resetAt <= now)
    ensures Inv(times + [now], Some(Bucket(1, now + rule.windowMs)), rule, now)
  {
    SortedMore(times, now);
    forall i | 0 <= i <= |times| - PerInterval(rule) ensures now - times[i] >= rule.windowMs {
      assert times[i] <= times[|times| - Used(bucket.value, rule)];
    }
    SpacedMore(times, PerInterval(rule), rule.windowMs, now);
  }

  lemma AllowKeepsInv(times: seq<int>, bucket: Bucket, rule: Rule, now: int)
    requires Inv(times, Some(bucket), rule, now) && now < bucket.resetAt && bucket.count + 1 <= rule.limit
    ensures Inv(times + [now], Some(bucket.(count := bucket.count + 1)), rule, now)
  {
    SortedMore(times, now);
    var start, used := bucket.resetAt - rule.windowMs, Used(bucket, rule);
    forall i | 0 <= i <= |times| - PerInterval(rule) ensures now - times[i] >= rule.windowMs {
      assert start - times[i] >= rule.windowMs;
      assert times[|times| - used] <= now;
    }
    SpacedMore(times, PerInterval(rule), rule.windowMs, now);
  }

  lemma CountKeepsInv(times: seq<int>, bucket: Option<Bucket>, rule: Rule, now: int)
    requires Inv(times, bucket, rule, now)
    ensures var turn := Count(bucket, rule, now);
            Inv(times + (if turn.verdict.Allowed? then [now] else []), Some(turn.bucket), rule, now)
  {
    if bucket.None? || bucket.value.resetAt <= now {
      OpenKeepsInv(times, bucket, rule, now);
    } else if bucket.value.count + 1 <= rule.limit {
      AllowKeepsInv(times, bucket.value, rule, now);
    } else {
      assert times + [] == times;
      LimitKeepsInv(times, bucket.value, rule, now);
    }
  }

  lemma LimitKeepsInv(times: seq<int>, bucket: Bucket, rule: Rule, now: int)
    requires Inv(times, Some(bucket), rule, now) && bucket.count + 1 > rule.limit
    ensures Inv(times, Some(bucket.(count := bucket.count + 1)), rule, now)
  {
    assert Used(bucket.(count := bucket.count + 1), rule) == Used(bucket, rule);
  }

  lemma Again(before: seq<Request>, request: Request)
    ensures BucketsAfter(before + [request]) ==
            var turn := Count(Find(BucketsAfter(before), request.key), request.rule, request.now);
            BucketsAfter(before)[request.key := turn.bucket]
    ensures AllowedTimes(before + [request], request.key) ==
            AllowedTimes(before, request.key) + (if VerdictOf(before, request).Allowed? then [request.now] else [])
  {
  }

  lemma {:induction false} StepKeepsInv(before: seq<Request>, last: Request, key: string, rule: Rule)
    requires Inv(AllowedTimes(before, key), Find(BucketsAfter(before), key), rule, last.now)
    requires last.key == key ==> last.rule == rule
    ensures Inv(AllowedTimes(before + [last], key), Find(BucketsAfter(before + [last]), key), rule, last.now)
  {
    if last.key == key {
      Again(before, last);
      CountKeepsInv(AllowedTimes(before, key), Find(BucketsAfter(before), key), rule, last.now);
    } else {
    }
  }

  lemma {:induction false} RunKeepsInv(requests: seq<Request>, key: string, rule: Rule, now: int)
    requires InOrder(requests) && OneRule(requests, key, rule)
    requires forall i :: 0 <= i < |requests| ==> requests[i].now <= now
    ensures Inv(AllowedTimes(requests, key), Find(BucketsAfter(requests), key), rule, now)
    decreases |requests|
  {
    if requests != [] {
      var init, last := requests[..|requests| - 1], requests[|requests| - 1];
      RunKeepsInv(init, key, rule, last.now);
      StepKeepsInv(init, last, key, rule);
      assert init + [last] == requests;
    }
  }

  /** For a clock that does not go back: any half-open interval of a window's length holds fewer than
      twice the limit of allowed requests under a key; a limit below one counts as one. */
  lemma LessThanTwiceTheLimit(requests: seq<Request>, key: string, rule: Rule, lo: int)
    requires InOrder(requests) && OneRule(requests, key, rule)
    ensures CountIn(AllowedTimes(requests, key), lo, lo + rule.windowMs) < 2 * PerWindow(rule)
  {
    RunKeepsInv(requests, key, rule, if requests == [] then 0 else requests[|requests| - 1].now);
    AtMostInWindow(AllowedTimes(requests, key), PerInterval(rule), rule.windowMs, lo);
  }

  /** A refused request is told the least number of whole seconds that reaches the end of its window,
      and a request of the key made then, with none in between, is allowed. */
  lemma {:induction false} RetryAfterReachesTheEnd(before: seq<Request>, request: Request, later: Request)
    requires VerdictOf(before, request).Limited? && later.key == request.key
    requires later.now >= request.now + 1000 * VerdictOf(before, request).retryAfterSeconds
    ensures var seconds, end := VerdictOf(before, request).retryAfterSeconds, BucketsAfter(before)[request.key].resetAt;
            && seconds >= 1 && request.now + 1000 * (seconds - 1) < end <= request.now + 1000 * seconds
            && VerdictOf(before + [request], later).Allowed?
  {
  }

  lemma CountMore(times: seq<int>, t: int, lo: int, hi: int)
    ensures CountIn(times + [t], lo, hi) == CountIn(times, lo, hi) + (if lo <= t < hi then 1 else 0)
  {
  }

  function Repeat(request: Request, n: nat): seq<Request> {
    if n == 0 then [] else Repeat(request, n - 1) + [request]
  }

  lemma RepeatMore(before: seq<Request>, request: Request, n: nat)
    requires n > 0
    ensures before + Repeat(request, n) == before + Repeat(request, n - 1) + [request]
  {
  }

  /** The key's bucket after `requests`, and how many of them were allowed in the interval. */
  ghost predicate At(requests: seq<Request>, key: string, bucket: Option<Bucket>, lo: int, hi: int, n: nat) {
    Find(BucketsAfter(requests), key) == bucket && CountIn(AllowedTimes(requests, key), lo, hi) == n
  }

  lemma AllowedIsCounted(
      before: seq<Request>, request: Request, bucket: Option<Bucket>, next: Bucket, lo: int, hi: int, n: nat)
    requires At(before, request.key, bucket, lo, hi, n)
    requires Count(bucket, request.rule, request.now) == Turn(next, Allowed)
    ensures At(before + [request], request.key, Some(next), lo, hi, n + (if lo <= request.now < hi then 1 else 0))
  {
    Again(before, request);
    CountMore(AllowedTimes(before, request.key), request.now, lo, hi);
  }

  lemma OpensAnew(bucket: Bucket, rule: Rule, now: int)
    requires bucket.resetAt <= now
    ensures Count(Some(bucket), rule, now) == Turn(Bucket(1, now + rule.windowMs), Allowed)
  {
  }

  lemma CountsOn(bucket: Bucket, rule: Rule, now: int)
    requires now < bucket.resetAt && bucket.count + 1 <= rule.limit
    ensures Count(Some(bucket), rule, now) == Turn(Bucket(bucket.count + 1, bucket.resetAt), Allowed)
  {
  }

  /** Requests of one moment in an open window are all allowed while the limit lasts. */
  lemma {:induction false} RepeatsAreAllowed(
      before: seq<Request>, request: Request, more: nat, bucket: Bucket, lo: int, hi: int, n: nat)
    requires At(before, request.key, Some(bucket), lo, hi, n) && request.now < bucket.resetAt
    requires bucket.count + more <= request.rule.limit && lo <= request.now < hi
    ensures var last := Bucket(bucket.count + more, bucket.resetAt);
            At(before + Repeat(request, more), request.key, Some(last), lo, hi, n + more)
    decreases more
  {
    if more == 0 {
      assert before + [] == before;
    } else {
      RepeatsAreAllowed(before, request, more - 1, bucket, lo, hi, n);
      var so := Bucket(bucket.count + more - 1, bucket.resetAt);
      var next := Bucket(bucket.count + more, bucket.resetAt);
      CountsOn(so, request.rule, request.now);
      AllowedIsCounted(before + Repeat(request, more - 1), request, Some(so), next, lo, hi, n + more - 1);
      RepeatMore(before, request, more);
    }
  }

  /** Every request so far is under the rule and not after `now`. */
  ghost predicate Steady(requests: seq<Request>, rule: Rule, now: int) {
    InOrder(requests) && forall i :: 0 <= i < |requests| ==> requests[i].now <= now && requests[i].rule == rule
  }

  lemma SteadyMore(before: seq<Request>, request: Request, now: int)
    requires Steady(before, request.rule, now) && now <= request.now
    ensures Steady(before + [request], request.rule, request.now)
  {
  }

  lemma {:induction false} SteadyRepeats(before: seq<Request>, request: Request, more: nat)
    requires Steady(before, request.rule, request.now)
    ensures Steady(before + Repeat(request, more), request.rule, request.now)
    decreases more
  {
    if more == 0 {
      assert before + [] == before;
    } else {
      SteadyRepeats(before, request, more - 1);
      SteadyMore(before + Repeat(request, more - 1), request, request.now);
      RepeatMore(before, request, more);
    }
  }

  /** One request at the start of a window and the rest of its limit at its end. */
  function FirstWindow(key: string, rule: Rule): seq<Request>
    requires rule.limit >= 1
  {
    [] + [Request(key, rule, 0)] + Repeat(Request(key, rule, rule.windowMs - 1), rule.limit - 1)
  }

  /** Then a whole limit as the next window opens. */
  function Burst(key: string, rule: Rule): seq<Request>
    requires rule.limit >= 1
  {
    FirstWindow(key, rule) + [Request(key, rule, rule.windowMs)]
      + Repeat(Request(key, rule, rule.windowMs), rule.limit - 1)
  }

  lemma BurstIsSteady(key: string, rule: Rule)
    requires rule.limit >= 1 && rule.windowMs > 1
    ensures Steady(Burst(key, rule), rule, rule.windowMs)
  {
    var start, next := Request(key, rule, 0), Request(key, rule, rule.windowMs);
    SteadyMore([], start, 0);
    SteadyRepeats([] + [start], Request(key, rule, rule.windowMs - 1), rule.limit - 1);
    SteadyMore(FirstWindow(key, rule), next, rule.windowMs - 1);
    SteadyRepeats(FirstWindow(key, rule) + [next], next, rule.limit - 1);
  }

  lemma FirstWindowAllows(key: string, rule: Rule)
    requires rule.limit >= 1 && rule.windowMs > 1
    ensures At(FirstWindow(key, rule), key, Some(Bucket(rule.limit, rule.windowMs)),
               rule.windowMs - 1, 2 * rule.windowMs - 1, rule.limit - 1)
  {
    var lo, hi := rule.windowMs - 1, 2 * rule.windowMs - 1;
    AllowedIsCounted([], Request(key, rule, 0), None, Bucket(1, rule.windowMs), lo, hi, 0);
    RepeatsAreAllowed([] + [Request(key, rule, 0)], Request(key, rule, lo), rule.limit - 1, Bucket(1, rule.windowMs),
                      lo, hi, 0);
  }

  lemma NextWindowAllows(first: seq<Request>, key: string, rule: Rule)
    requires rule.limit >= 1 && rule.windowMs > 1
    requires At(first, key, Some(Bucket(rule.limit, rule.windowMs)),
                rule.windowMs - 1, 2 * rule.windowMs - 1, rule.limit - 1)
    ensures var next := Request(key, rule, rule.windowMs);
            At(first + [next] + Repeat(next, rule.limit - 1), key, Some(Bucket(rule.limit, 2 * rule.windowMs)),
               rule.windowMs - 1, 2 * rule.windowMs - 1, 2 * rule.limit - 1)
  {
    var next, lo, hi := Request(key, rule, rule.windowMs), rule.windowMs - 1, 2 * rule.windowMs - 1;
    var full, another := Bucket(rule.limit, rule.windowMs), Bucket(1, 2 * rule.windowMs);
    OpensAnew(full, rule, rule.windowMs);
    AllowedIsCounted(first, next, Some(full), another, lo, hi, rule.limit - 1);
    RepeatsAreAllowed(first + [next], next, rule.limit - 1, another, lo, hi, rule.limit);
  }

  lemma BurstAllows(key: string, rule: Rule)
    requires rule.limit >= 1 && rule.windowMs > 1
    ensures At(Burst(key, rule), key, Some(Bucket(rule.limit, 2 * rule.windowMs)),
               rule.windowMs - 1, 2 * rule.windowMs - 1, 2 * rule.limit - 1)
  {
    FirstWindowAllows(key, rule);
    NextWindowAllows(FirstWindow(key, rule), key, rule);
  }

  /** The bound is reached, for every limit and every window longer than a millisecond. */
  lemma {:induction false} TheBoundIsReached(key: string, rule: Rule)
    requires rule.limit >= 1 && rule.windowMs > 1
    ensures InOrder(Burst(key, rule)) && OneRule(Burst(key, rule), key, rule)
    ensures var lo := rule.windowMs - 1;
            CountIn(AllowedTimes(Burst(key, rule), key), lo, lo + rule.windowMs) == 2 * PerWindow(rule) - 1
  {
    BurstIsSteady(key, rule);
    BurstAllows(key, rule);
  }
}
