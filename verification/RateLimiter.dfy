/**
 Token buckets with lazy refill, over exact arithmetic and a clock that never goes
 back, and the limiter that keeps one bucket per key.
 */
module RateLimiter {

  datatype Bucket = Bucket(tokens: real, maxTokens: real, refillRate: real, lastRefill: real, violations: nat)

  datatype Call = Call(at: real, cost: real)

  function Max(a: real, b: real): real {
    if a < b then b else a
  }

  function Min(a: real, b: real): real {
    if b < a then b else a
  }

  function NewBucket(max: real, rate: real, now: real): Bucket {
    Bucket(Max(1.0, max), Max(1.0, max), rate, now, 0)
  }

  /** Tokens a rate has granted by a given time; what an interval grants is the difference. */
  type Credit = (real, real) -> real

  /** Credit never shrinks. */
  ghost predicate Grows(g: Credit) {
    forall rate, x, y | 0.0 <= rate && x <= y :: g(rate, x) <= g(rate, y)
  }

  /** Granted between two times. */
  function Gain(g: Credit, rate: real, from: real, to: real): real {
    g(rate, to) - g(rate, from)
  }

  /** The source's credit: time times the refill rate. */
  function Linear(rate: real, time: real): real {
    time * rate
  }

  lemma LinearGrows()
    ensures Grows(Linear)
  {
    forall rate: real, x: real, y: real | 0.0 <= rate && x <= y
      ensures Linear(rate, x) <= Linear(rate, y)
    {
      assert 0.0 <= (y - x) * rate;
    }
  }

  /** Tokens available at a later time. */
  function Available(g: Credit, b: Bucket, now: real): real {
    Min(b.maxTokens, b.tokens + Gain(g, b.refillRate, b.lastRefill, now))
  }

  predicate Allowed(g: Credit, b: Bucket, call: Call) {
    Available(g, b, call.at) >= call.cost
  }

  function Consume(g: Credit, b: Bucket, call: Call): Bucket {
    var tokens := Available(g, b, call.at);
    if Allowed(g, b, call) then b.(tokens := tokens - call.cost, lastRefill := call.at)
    else b.(tokens := tokens, lastRefill := call.at, violations := b.violations + 1)
  }

  class TokenBucket {
    var tokens: real
    var maxTokens: real
    var refillRate: real
    var lastRefill: real
    var violations: nat

    ghost function State(): Bucket
      reads this
    {
      Bucket(tokens, maxTokens, refillRate, lastRefill, violations)
    }

    constructor (max: real, rate: real, now: real)
      ensures State() == NewBucket(max, rate, now)
    {
      tokens, maxTokens := Max(1.0, max), Max(1.0, max);
      refillRate, lastRefill, violations := rate, now, 0;
    }

    method TryConsume(now: real, cost: real) returns (ok: bool)
      modifies this
      ensures ok == Allowed(Linear, old(State()), Call(now, cost))
      ensures State() == Consume(Linear, old(State()), Call(now, cost))
    {
      var elapsed := now - lastRefill;
      assert elapsed * refillRate == Gain(Linear, refillRate, lastRefill, now);
      lastRefill := now;
      tokens := Min(maxTokens, tokens + elapsed * refillRate);
      if tokens >= cost {
        tokens := tokens - cost;
        return true;
      }
      violations := violations + 1;
      return false;
    }
  }

  // ----- Histories of one bucket -----

  /** A bucket just created, as the constructor leaves it. */
  predicate Fresh(b: Bucket) {
    b.tokens == b.maxTokens && 1.0 <= b.maxTokens && 0.0 <= b.refillRate
  }

  /** Calls after `start` in the order of the clock, with costs that are not negative. */
  predicate Ordered(start: real, calls: seq<Call>) {
    && (forall i | 0 <= i < |calls| :: start <= calls[i].at && 0.0 <= calls[i].cost)
    && (forall i, j | 0 <= i <= j < |calls| :: calls[i].at <= calls[j].at)
  }

  /** The bucket after the first n calls. */
  function After(g: Credit, b: Bucket, calls: seq<Call>, n: nat): Bucket
    requires n <= |calls|
  {
    if n == 0 then b else Consume(g, After(g, b, calls, n - 1), calls[n - 1])
  }

  predicate Admitted(g: Credit, b: Bucket, calls: seq<Call>, i: nat)
    requires i < |calls|
  {
    Allowed(g, After(g, b, calls, i), calls[i])
  }

  function Level(g: Credit, b: Bucket, calls: seq<Call>, i: nat): real
    requires i < |calls|
  {
    Available(g, After(g, b, calls, i), calls[i].at)
  }

  /** What a call took from the bucket. */
  function TakenBy(g: Credit, b: Bucket, calls: seq<Call>, i: nat): real
    requires i < |calls|
  {
    if Admitted(g, b, calls, i) then calls[i].cost else 0.0
  }

  /** The values of a function at the first n numbers. */
  function Tabulate(f: nat -> real, n: nat): (s: seq<real>)
    ensures |s| == n && forall i | 0 <= i < n :: s[i] == f(i)
  {
    if n == 0 then [] else Tabulate(f, n - 1) + [f(n - 1)]
  }

  function Taken(g: Credit, b: Bucket, calls: seq<Call>): (s: seq<real>)
    ensures |s| == |calls| && forall i | 0 <= i < |calls| :: s[i] == TakenBy(g, b, calls, i)
  {
    Tabulate((i: nat) => if i < |calls| then TakenBy(g, b, calls, i) else 0.0, |calls|)
  }

  /** The sum of xs from j up to but not including i. */
  function Sum(xs: seq<real>, j: nat, i: nat): real
    requires i <= |xs|
  {
    if i <= j then 0.0 else Sum(xs, j, i - 1) + xs[i - 1]
  }

  /** The cost admitted by the calls from j up to but not including i. */
  function Spent(g: Credit, b: Bucket, calls: seq<Call>, j: nat, i: nat): real
    requires i <= |calls|
  {
    Sum(Taken(g, b, calls), j, i)
  }

  // ----- Levels under a credit clock -----

  /** The level before a call, from the one before the call before it. */
  function NextLevel(cap: real, levels: seq<real>, taken: seq<real>, credit: seq<real>, i: nat): real
    requires 0 < i < |levels| == |taken| == |credit|
  {
    Min(cap, levels[i - 1] - taken[i - 1] + credit[i] - credit[i - 1])
  }

  /** Levels that start full, lose what is taken and gain what the clock grants, up to a cap. */
  predicate Refills(cap: real, levels: seq<real>, taken: seq<real>, credit: seq<real>) {
    && |levels| == |taken| == |credit|
    && (|levels| > 0 ==> levels[0] == cap)
    && (forall i {:trigger NextLevel(cap, levels, taken, credit, i)} | 0 < i < |levels| ::
          levels[i] == NextLevel(cap, levels, taken, credit, i))
  }

  /** At most this much is taken, and never more than there is. */
  predicate Affordable(levels: seq<real>, taken: seq<real>, most: real)
    requires |levels| == |taken|
  {
    forall i | 0 <= i < |taken| :: taken[i] <= most && (taken[i] <= levels[i] || taken[i] == 0.0)
  }

  /** The clock grants at least this much between calls. */
  predicate Grants(credit: seq<real>, least: real) {
    forall i, j | 0 <= i < |credit| && j == i + 1 < |credit| :: credit[j] - credit[i] >= least
  }

  lemma {:induction false} LevelsNonNegative(cap: real, levels: seq<real>, taken: seq<real>, credit: seq<real>, i: nat, most: real)
    requires Refills(cap, levels, taken, credit) && 0.0 <= cap
    requires Affordable(levels, taken, most) && Grants(credit, 0.0)
    requires i < |levels|
    ensures 0.0 <= levels[i]
  {
    if i > 0 {
      LevelsNonNegative(cap, levels, taken, credit, i - 1, most);
      assert levels[i] == NextLevel(cap, levels, taken, credit, i);
      assert credit[i] - credit[i - 1] >= 0.0;
    }
  }

  /** If what is taken is always granted again before the next call, the bucket is full each time. */
  lemma {:induction false} LevelsFull(cap: real, levels: seq<real>, taken: seq<real>, credit: seq<real>, i: nat, most: real)
    requires Refills(cap, levels, taken, credit)
    requires Affordable(levels, taken, most) && Grants(credit, most)
    requires i < |levels|
    ensures levels[i] == cap
  {
    if i > 0 {
      LevelsFull(cap, levels, taken, credit, i - 1, most);
      assert levels[i] == NextLevel(cap, levels, taken, credit, i);
      assert credit[i] - credit[i - 1] >= most;
    }
  }

  /** Counted from any earlier point, level plus consumption stays within the cap plus the credit. */
  lemma {:induction false} LevelBelowAllowance(
    cap: real, levels: seq<real>, taken: seq<real>, credit: seq<real>, j: nat, i: nat)
    requires Refills(cap, levels, taken, credit)
    requires j <= i < |levels|
    ensures levels[i] + Sum(taken, j, i) <= cap + credit[i] - credit[j]
  {
    if i > j {
      LevelBelowAllowance(cap, levels, taken, credit, j, i - 1);
      assert levels[i] == NextLevel(cap, levels, taken, credit, i);
    } else {
      assert i > 0 ==> levels[i] == NextLevel(cap, levels, taken, credit, i);
    }
  }

  /** Counted from some earlier point it is exactly that. */
  lemma {:induction false} LevelAttained(
    cap: real, levels: seq<real>, taken: seq<real>, credit: seq<real>, i: nat) returns (j: nat)
    requires Refills(cap, levels, taken, credit)
    requires i < |levels|
    ensures j <= i
    ensures levels[i] + Sum(taken, j, i) == cap + credit[i] - credit[j]
  {
    if i == 0 || levels[i] == cap {
      j := i;
    } else {
      j := LevelAttained(cap, levels, taken, credit, i - 1);
      assert levels[i] == NextLevel(cap, levels, taken, credit, i);
    }
  }

  // ----- The bucket is such a run -----

  function Levels(g: Credit, b: Bucket, calls: seq<Call>): (s: seq<real>)
    ensures |s| == |calls| && forall i | 0 <= i < |calls| :: s[i] == Level(g, b, calls, i)
  {
    Tabulate((i: nat) => if i < |calls| then Level(g, b, calls, i) else 0.0, |calls|)
  }

  function Credits(g: Credit, rate: real, calls: seq<Call>): (s: seq<real>)
    ensures |s| == |calls| && forall i | 0 <= i < |calls| :: s[i] == g(rate, calls[i].at)
  {
    Tabulate((i: nat) => if i < |calls| then g(rate, calls[i].at) else 0.0, |calls|)
  }

  lemma {:induction false} AfterFixed(g: Credit, b: Bucket, calls: seq<Call>, n: nat)
    requires n <= |calls|
    ensures After(g, b, calls, n).maxTokens == b.maxTokens && After(g, b, calls, n).refillRate == b.refillRate
    ensures After(g, b, calls, n).lastRefill == if n == 0 then b.lastRefill else calls[n - 1].at
  {
    if n > 0 {
      AfterFixed(g, b, calls, n - 1);
    }
  }

  /** How the level moves from one call to the next. */
  lemma LevelStep(g: Credit, b: Bucket, calls: seq<Call>, i: nat)
    requires 0 < i < |calls|
    ensures Level(g, b, calls, i) == Min(b.maxTokens,
                                      Level(g, b, calls, i - 1) - TakenBy(g, b, calls, i - 1)
                                      + Gain(g, b.refillRate, calls[i - 1].at, calls[i].at))
  {
    AfterFixed(g, b, calls, i);
    AfterFixed(g, b, calls, i - 1);
  }

  lemma FirstLevel(g: Credit, b: Bucket, calls: seq<Call>)
    requires Grows(g)
    requires Fresh(b)
    requires calls != [] && b.lastRefill <= calls[0].at
    ensures Level(g, b, calls, 0) == b.maxTokens
  {
  }

  lemma BucketRefills(g: Credit, b: Bucket, calls: seq<Call>)
    requires Grows(g)
    requires Fresh(b)
    requires Ordered(b.lastRefill, calls)
    ensures Refills(b.maxTokens, Levels(g, b, calls), Taken(g, b, calls), Credits(g, b.refillRate, calls))
  {
    var (levels, taken, credit) := (Levels(g, b, calls), Taken(g, b, calls), Credits(g, b.refillRate, calls));
    if calls != [] {
      FirstLevel(g, b, calls);
    }
    forall i | 0 < i < |calls|
      ensures levels[i] == NextLevel(b.maxTokens, levels, taken, credit, i)
    {
      LevelStep(g, b, calls, i);
      assert levels[i - 1] == Level(g, b, calls, i - 1) && taken[i - 1] == TakenBy(g, b, calls, i - 1);
    }
  }

  lemma BucketAffordable(g: Credit, b: Bucket, calls: seq<Call>, most: real)
    requires 0.0 <= most && forall i | 0 <= i < |calls| :: calls[i].cost <= most
    ensures Affordable(Levels(g, b, calls), Taken(g, b, calls), most)
  {
  }

  lemma ClockGrants(g: Credit, b: Bucket, calls: seq<Call>)
    requires Grows(g) && 0.0 <= b.refillRate && Ordered(b.lastRefill, calls)
    ensures Grants(Credits(g, b.refillRate, calls), 0.0)
  {
  }

  /** Counted from the j-th call, made at `from`, the admitted cost with the i-th call's is within the burst and
      what the clock granted. */
  predicate WithinGain(g: Credit, b: Bucket, calls: seq<Call>, j: nat, from: real, i: nat)
    requires i < |calls|
  {
    Spent(g, b, calls, j, i) + calls[i].cost <= b.maxTokens + Gain(g, b.refillRate, from, calls[i].at)
  }

  /**
   A call is allowed exactly when, counted from the bucket's creation and from every
   call up to itself, the admitted cost with its own stays within burst plus rate.
   */
  lemma AllowedExactly(g: Credit, b: Bucket, calls: seq<Call>, i: nat)
    requires Grows(g)
    requires Fresh(b)
    requires Ordered(b.lastRefill, calls)
    requires i < |calls|
    ensures Admitted(g, b, calls, i) <==>
              && WithinGain(g, b, calls, 0, b.lastRefill, i)
              && forall j: nat | j <= i :: WithinGain(g, b, calls, j, calls[j].at, i)
  {
    BucketRefills(g, b, calls);
    var (levels, taken, credit) := (Levels(g, b, calls), Taken(g, b, calls), Credits(g, b.refillRate, calls));
    forall j: nat | j <= i
      ensures levels[i] + Spent(g, b, calls, j, i) <= b.maxTokens + Gain(g, b.refillRate, calls[j].at, calls[i].at)
    {
      LevelBelowAllowance(b.maxTokens, levels, taken, credit, j, i);
    }
    var j := LevelAttained(b.maxTokens, levels, taken, credit, i);
    assert WithinGain(g, b, calls, j, calls[j].at, i) <==> levels[i] >= calls[i].cost;
    assert WithinGain(g, b, calls, 0, calls[0].at, i) ==> WithinGain(g, b, calls, 0, b.lastRefill, i);
  }

  /** The source's gain over an interval is the rate times its length. */
  lemma LinearGain(rate: real, from: real, to: real)
    ensures Gain(Linear, rate, from, to) == rate * (to - from)
  {
    assert to * rate - from * rate == rate * (to - from);
  }

  /** The burst and the rate times the elapsed time. */
  predicate WithinRate(max: real, rate: real, spent: real, cost: real, elapsed: real) {
    spent + cost <= Max(1.0, max) + rate * elapsed
  }

  lemma GainIsRate(max: real, rate: real, start: real, calls: seq<Call>, j: nat, from: real, i: nat)
    requires i < |calls|
    ensures var b := NewBucket(max, rate, start);
      WithinGain(Linear, b, calls, j, from, i)
      <==> WithinRate(max, rate, Spent(Linear, b, calls, j, i), calls[i].cost, calls[i].at - from)
  {
    LinearGain(rate, from, calls[i].at);
  }

  /** The same for a bucket as the limiter creates it, with the source's linear refill. */
  lemma BurstPlusRateExact(max: real, rate: real, start: real, calls: seq<Call>, i: nat)
    requires 0.0 <= rate
    requires Ordered(start, calls)
    requires i < |calls|
    ensures var b := NewBucket(max, rate, start);
            Admitted(Linear, b, calls, i) <==>
              && WithinRate(max, rate, Spent(Linear, b, calls, 0, i), calls[i].cost, calls[i].at - start)
              && forall j: nat | j <= i ::
                   WithinRate(max, rate, Spent(Linear, b, calls, j, i), calls[i].cost, calls[i].at - calls[j].at)
  {
    LinearGrows();
    AllowedExactly(Linear, NewBucket(max, rate, start), calls, i);
    GainIsRate(max, rate, start, calls, 0, start, i);
    forall j: nat | j <= i
      ensures WithinGain(Linear, NewBucket(max, rate, start), calls, j, calls[j].at, i)
         <==> WithinRate(max, rate, Spent(Linear, NewBucket(max, rate, start), calls, j, i), calls[i].cost,
                         calls[i].at - calls[j].at)
    {
      GainIsRate(max, rate, start, calls, j, calls[j].at, i);
    }
  }

  function MostCost(calls: seq<Call>): (m: real)
    ensures 0.0 <= m && forall i | 0 <= i < |calls| :: calls[i].cost <= m
  {
    if calls == [] then 0.0 else Max(MostCost(calls[..|calls| - 1]), calls[|calls| - 1].cost)
  }

  /** Every window of calls admits at most the burst plus what the clock grants in it. */
  lemma WindowBound(g: Credit, b: Bucket, calls: seq<Call>, j: nat, i: nat)
    requires Grows(g)
    requires Fresh(b)
    requires Ordered(b.lastRefill, calls)
    requires j <= i < |calls|
    ensures Spent(g, b, calls, j, i + 1) <= b.maxTokens + Gain(g, b.refillRate, calls[j].at, calls[i].at)
  {
    var (levels, taken, credit) := (Levels(g, b, calls), Taken(g, b, calls), Credits(g, b.refillRate, calls));
    BucketRefills(g, b, calls);
    BucketAffordable(g, b, calls, MostCost(calls));
    ClockGrants(g, b, calls);
    LevelBelowAllowance(b.maxTokens, levels, taken, credit, j, i);
    LevelsNonNegative(b.maxTokens, levels, taken, credit, i, MostCost(calls));
  }

  /** A caller whose unit calls are each granted a token in time is never rejected. */
  lemma SpacedCallsAdmitted(g: Credit, b: Bucket, calls: seq<Call>, i: nat)
    requires Grows(g)
    requires Fresh(b)
    requires Ordered(b.lastRefill, calls)
    requires forall k | 0 <= k < |calls| :: calls[k].cost == 1.0
    requires Grants(Credits(g, b.refillRate, calls), 1.0)
    requires i < |calls|
    ensures Admitted(g, b, calls, i)
  {
    BucketRefills(g, b, calls);
    BucketAffordable(g, b, calls, 1.0);
    LevelsFull(b.maxTokens, Levels(g, b, calls), Taken(g, b, calls), Credits(g, b.refillRate, calls), i, 1.0);
  }

  lemma OneTokenPerCall(rate: real, from: real, to: real)
    requires 0.0 < rate && to - from >= 1.0 / rate
    ensures Linear(rate, to) - Linear(rate, from) >= 1.0
  {
    LinearGain(rate, from, to);
    assert rate * (to - from) >= rate * (1.0 / rate);
  }

  /** With the source's linear refill: unit calls at least 1/rate apart are never rejected. */
  lemma SpacedByRateAdmitted(max: real, rate: real, start: real, calls: seq<Call>, i: nat)
    requires 0.0 < rate
    requires Ordered(start, calls)
    requires forall k | 0 <= k < |calls| :: calls[k].cost == 1.0
    requires forall k, l | 0 <= k < |calls| && l == k + 1 < |calls| :: calls[l].at - calls[k].at >= 1.0 / rate
    requires i < |calls|
    ensures Admitted(Linear, NewBucket(max, rate, start), calls, i)
  {
    LinearGrows();
    var credit := Credits(Linear, rate, calls);
    forall k, l | 0 <= k < |credit| && l == k + 1 < |credit|
      ensures credit[l] - credit[k] >= 1.0
    {
      OneTokenPerCall(rate, calls[k].at, calls[l].at);
    }
    SpacedCallsAdmitted(Linear, NewBucket(max, rate, start), calls, i);
  }

  // ----- Rejected calls leave no trace -----

  /** From `now` on the two buckets offer the same tokens. */
  predicate SameFrom(g: Credit, a: Bucket, b: Bucket, now: real) {
    && a.maxTokens == b.maxTokens
    && a.refillRate == b.refillRate
    && 0.0 <= a.refillRate
    && a.lastRefill <= now
    && b.lastRefill <= now
    && Available(g, a, now) == Available(g, b, now)
  }

  /** Refilling in two steps is refilling in one. */
  lemma RefillSplits(g: Credit, b: Bucket, now: real, later: real)
    requires Grows(g)
    requires 0.0 <= b.refillRate
    requires b.lastRefill <= now <= later
    ensures Available(g, b, later) == Min(b.maxTokens, Available(g, b, now) + Gain(g, b.refillRate, now, later))
  {
  }

  lemma SameFromStep(g: Credit, a: Bucket, b: Bucket, now: real, call: Call)
    requires Grows(g)
    requires SameFrom(g, a, b, now)
    requires now <= call.at
    ensures Allowed(g, a, call) == Allowed(g, b, call)
    ensures SameFrom(g, Consume(g, a, call), Consume(g, b, call), call.at)
  {
    RefillSplits(g, a, now, call.at);
    RefillSplits(g, b, now, call.at);
  }

  lemma {:induction false} SameFromRun(g: Credit, a: Bucket, b: Bucket, now: real, calls: seq<Call>, i: nat)
    requires Grows(g)
    requires SameFrom(g, a, b, now)
    requires Ordered(now, calls)
    requires i <= |calls|
    ensures SameFrom(g, After(g, a, calls, i), After(g, b, calls, i), if i == 0 then now else calls[i - 1].at)
  {
    if i > 0 {
      SameFromRun(g, a, b, now, calls, i - 1);
      SameFromStep(g, After(g, a, calls, i - 1), After(g, b, calls, i - 1), if i == 1 then now else calls[i - 2].at, calls[i - 1]);
    }
  }

  lemma {:induction false} AfterConcat(g: Credit, b: Bucket, xs: seq<Call>, ys: seq<Call>, n: nat)
    requires n <= |ys|
    ensures After(g, b, xs + ys, |xs| + n) == After(g, After(g, b, xs, |xs|), ys, n)
  {
    if n == 0 {
      AfterPrefix(g, b, xs, ys, |xs|);
    } else {
      AfterConcat(g, b, xs, ys, n - 1);
      assert (xs + ys)[|xs| + n - 1] == ys[n - 1];
    }
  }

  lemma {:induction false} AfterPrefix(g: Credit, b: Bucket, xs: seq<Call>, ys: seq<Call>, n: nat)
    requires n <= |xs|
    ensures After(g, b, xs + ys, n) == After(g, b, xs, n)
  {
    if n > 0 {
      AfterPrefix(g, b, xs, ys, n - 1);
    }
  }

  lemma OrderedSuffix(start: real, before: seq<Call>, call: Call, later: seq<Call>)
    requires Ordered(start, before + [call] + later)
    ensures Ordered(call.at, later)
    ensures before != [] ==> before[|before| - 1].at <= call.at
    ensures start <= call.at
  {
    var all := before + [call] + later;
    assert all[|before|] == call;
    assert before != [] ==> all[|before| - 1] == before[|before| - 1];
    forall k | 0 <= k < |later|
      ensures later[k] == all[|before| + 1 + k]
    {
    }
  }

  lemma RejectedSame(g: Credit, s: Bucket, rejected: Call)
    requires Grows(g)
    requires 0.0 <= s.refillRate
    requires s.lastRefill <= rejected.at
    requires !Allowed(g, s, rejected)
    ensures SameFrom(g, Consume(g, s, rejected), s, rejected.at)
  {
  }

  lemma SameAnswerLater(g: Credit, s: Bucket, rejected: Call, later: seq<Call>, i: nat)
    requires Grows(g)
    requires 0.0 <= s.refillRate
    requires s.lastRefill <= rejected.at
    requires !Allowed(g, s, rejected)
    requires Ordered(rejected.at, later)
    requires i < |later|
    ensures Admitted(g, Consume(g, s, rejected), later, i) <==> Admitted(g, s, later, i)
  {
    RejectedSame(g, s, rejected);
    SameFromRun(g, Consume(g, s, rejected), s, rejected.at, later, i);
    SameFromStep(g, After(g, Consume(g, s, rejected), later, i), After(g, s, later, i),
                 if i == 0 then rejected.at else later[i - 1].at, later[i]);
  }

  lemma AfterOneMore(g: Credit, b: Bucket, xs: seq<Call>, call: Call)
    ensures After(g, b, xs + [call], |xs + [call]|) == Consume(g, After(g, b, xs, |xs|), call)
  {
    AfterPrefix(g, b, xs, [call], |xs|);
  }

  lemma AdmittedConcat(g: Credit, b: Bucket, xs: seq<Call>, ys: seq<Call>, i: nat)
    requires i < |ys|
    ensures Admitted(g, b, xs + ys, |xs| + i) <==> Admitted(g, After(g, b, xs, |xs|), ys, i)
  {
    AfterConcat(g, b, xs, ys, i);
  }

  /** A later call's answer, with the rejected call in the history. */
  lemma AnswerWith(g: Credit, b: Bucket, before: seq<Call>, rejected: Call, later: seq<Call>, i: nat)
    requires i < |later|
    ensures Admitted(g, b, before + [rejected] + later, |before + [rejected]| + i)
       <==> Admitted(g, Consume(g, After(g, b, before, |before|), rejected), later, i)
  {
    AfterOneMore(g, b, before, rejected);
    AdmittedConcat(g, b, before + [rejected], later, i);
  }

  /** Dropping a rejected call from a history changes the outcome of no later call. */
  lemma RejectionIrrelevant(g: Credit, b: Bucket, before: seq<Call>, rejected: Call, later: seq<Call>, i: nat)
    requires Grows(g)
    requires Fresh(b)
    requires Ordered(b.lastRefill, before + [rejected] + later)
    requires !Allowed(g, After(g, b, before, |before|), rejected)
    requires i < |later|
    ensures Admitted(g, b, before + [rejected] + later, |before + [rejected]| + i)
       <==> Admitted(g, b, before + later, |before| + i)
  {
    OrderedSuffix(b.lastRefill, before, rejected, later);
    AfterFixed(g, b, before, |before|);
    SameAnswerLater(g, After(g, b, before, |before|), rejected, later, i);
    AnswerWith(g, b, before, rejected, later, i);
    AdmittedConcat(g, b, before, later, i);
  }

  // ----- One bucket per key -----

  datatype LimitType = MsgChat | Connecting | Auth | FileTransfer

  /** The configured limits, in the units of the configuration file. */
  datatype Limits = Limits(msgPerSec: nat, connectPerMin: nat, authPerMin: nat, filesPerHour: nat)

  function DefaultRate(limits: Limits, kind: LimitType): (rate: real)
    ensures 0.0 <= rate
  {
    match kind
    case MsgChat => limits.msgPerSec as real
    case Connecting => limits.connectPerMin as real / 60.0
    case Auth => limits.authPerMin as real / 60.0
    case FileTransfer => limits.filesPerHour as real / 3600.0
  }

  datatype Op = Check(key: string, kind: LimitType, call: Call) | Remove(key: string)

  type Buckets = map<string, Bucket>

  /** The bucket a check consults, created full on first use. */
  function BucketFor(limits: Limits, m: Buckets, op: Op): Bucket
    requires op.Check?
  {
    if op.key in m then m[op.key]
    else NewBucket(DefaultRate(limits, op.kind) * 2.0, DefaultRate(limits, op.kind), op.call.at)
  }

  function Step(limits: Limits, m: Buckets, op: Op): Buckets {
    match op
    case Check(key, kind, call) => m[key := Consume(Linear, BucketFor(limits, m, op), call)]
    case Remove(key) => m - {key}
  }

  /** The answers to the checks, in order. */
  function Answers(limits: Limits, m: Buckets, ops: seq<Op>): seq<bool>
    decreases ops
  {
    if ops == [] then []
    else (if ops[0].Check? then [Allowed(Linear, BucketFor(limits, m, ops[0]), ops[0].call)] else [])
         + Answers(limits, Step(limits, m, ops[0]), ops[1..])
  }

  class Limiter {
    const limits: Limits
    var buckets: Buckets

    constructor (limits: Limits)
      ensures this.limits == limits && buckets == map[]
    {
      this.limits := limits;
      buckets := map[];
    }

    method CheckLimit(key: string, kind: LimitType, now: real, cost: real) returns (allowed: bool)
      modifies this
      ensures var op := Check(key, kind, Call(now, cost));
              && allowed == Allowed(Linear, BucketFor(limits, old(buckets), op), op.call)
              && buckets == Step(limits, old(buckets), op)
    {
      if key !in buckets {
        var rate := DefaultRate(limits, kind);
        buckets := buckets[key := NewBucket(rate * 2.0, rate, now)];
      }
      var bucket := buckets[key];
      allowed := Allowed(Linear, bucket, Call(now, cost));
      buckets := buckets[key := Consume(Linear, bucket, Call(now, cost))];
    }

    method RemoveKey(key: string)
      modifies this
      ensures buckets == Step(limits, old(buckets), Remove(key))
    {
      if key in buckets {
        buckets := buckets - {key};
      }
    }
  }

  function OpsOf(ops: seq<Op>, key: string): seq<Op> {
    if ops == [] then [] else (if ops[0].key == key then [ops[0]] else []) + OpsOf(ops[1..], key)
  }

  /** The answers given for one key. */
  function AnswersFor(limits: Limits, m: Buckets, ops: seq<Op>, key: string): seq<bool>
    decreases ops
  {
    if ops == [] then []
    else (if ops[0].Check? && ops[0].key == key then [Allowed(Linear, BucketFor(limits, m, ops[0]), ops[0].call)] else [])
         + AnswersFor(limits, Step(limits, m, ops[0]), ops[1..], key)
  }

  /** Traffic under other keys never affects a key: its answers are those of its own history alone. */
  lemma {:induction false} KeysIsolated(limits: Limits, m: Buckets, n: Buckets, ops: seq<Op>, key: string)
    requires key in m <==> key in n
    requires key in m ==> m[key] == n[key]
    ensures AnswersFor(limits, m, ops, key) == Answers(limits, n, OpsOf(ops, key))
    decreases ops
  {
    if ops != [] {
      var op := ops[0];
      if op.key == key {
        KeysIsolated(limits, Step(limits, m, op), Step(limits, n, op), ops[1..], key);
        assert OpsOf(ops, key)[1..] == OpsOf(ops[1..], key);
      } else {
        KeysIsolated(limits, Step(limits, m, op), n, ops[1..], key);
        assert OpsOf(ops, key) == OpsOf(ops[1..], key);
      }
    }
  }
}
