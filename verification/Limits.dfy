/** Token buckets.  Times are nanoseconds; allowances are real numbers. */
module TokenBuckets {
  const NANOSECONDS := 1_000_000_000

  datatype Bucket = Bucket(tokens: real, capacity: real, refill: real, last: int)

  function Seconds(nanoseconds: int): real {
    nanoseconds as real / NANOSECONDS as real
  }

  /** What a refill rate brings in so many nanoseconds. */
  function Gain(rate: real, nanoseconds: int): real {
    Seconds(nanoseconds) * rate
  }

  function Min(a: real, b: real): real {
    if a < b then a else b
  }

  function Fresh(rate: real, burst: real, now: int): Bucket {
    Bucket(burst, burst, rate, now)
  }

  function Refilled(b: Bucket, now: int): Bucket {
    if now > b.last then
      b.(tokens := Min(b.capacity, b.tokens + Gain(b.refill, now - b.last)), last := now)
    else b
  }

  function Take(b: Bucket, now: int): (Bucket, bool) {
    var r := Refilled(b, now);
    if r.tokens < 1.0 then (r, false) else (r.(tokens := r.tokens - 1.0), true)
  }

  function Available(b: Bucket, now: int): real {
    if now > b.last then Min(b.capacity, b.tokens + Gain(b.refill, now - b.last)) else b.tokens
  }

  class TokenBucket {
    var tokens: real
    const capacity: real
    const refill: real
    var last: int

    ghost function State(): Bucket
      reads this
    {
      Bucket(tokens, capacity, refill, last)
    }

    constructor (ratePerSecond: real, burst: real, now: int)
      ensures State() == Fresh(ratePerSecond, burst, now)
    {
      tokens, capacity, refill, last := burst, burst, ratePerSecond, now;
    }

    method Allow(now: int) returns (allowed: bool)
      modifies this
      ensures (State(), allowed) == Take(old(State()), now)
    {
      if now - last > 0 {
        tokens := Min(capacity, tokens + Gain(refill, now - last));
        last := now;
      }
      if tokens < 1.0 {
        return false;
      }
      tokens := tokens - 1.0;
      allowed := true;
    }

    method TokensAt(now: int) returns (available: real)
      ensures available == Available(State(), now)
    {
      available := tokens;
      if now - last > 0 {
        available := Min(capacity, tokens + Gain(refill, now - last));
      }
    }
  }

  // ------------------------------------------------------------------------ runs

  /** The bucket after a call at each of the times, and how many of the calls it allowed. */
  function Calls(b: Bucket, times: seq<int>): (Bucket, nat) {
    if times == [] then (b, 0)
    else
      var (before, n) := Calls(b, times[..|times| - 1]);
      var (after, allowed) := Take(before, times[|times| - 1]);
      (after, n + if allowed then 1 else 0)
  }

  predicate Sane(b: Bucket) {
    b.refill >= 0.0 && 0.0 <= b.tokens <= b.capacity
  }

  lemma GainAdds(rate: real, a: int, b: int)
    ensures Gain(rate, a) + Gain(rate, b) == Gain(rate, a + b)
  {
    assert Seconds(a) + Seconds(b) == Seconds(a + b);
    assert (Seconds(a) + Seconds(b)) * rate == Seconds(a) * rate + Seconds(b) * rate;
  }

  lemma GainGrows(rate: real, a: int, b: int)
    requires a <= b && rate >= 0.0
    ensures Gain(rate, a) <= Gain(rate, b) && Gain(rate, 0) == 0.0
  {
    assert Seconds(a) <= Seconds(b);
  }

  /** One call spends no more than it leaves and what time has brought. */
  lemma TakeSpends(b: Bucket, now: int)
    requires Sane(b)
    ensures var (after, allowed) := Take(b, now);
            && Sane(after) && after.capacity == b.capacity && after.refill == b.refill
            && after.last == (if now > b.last then now else b.last)
            && after.tokens + (if allowed then 1.0 else 0.0) <= b.tokens + Gain(b.refill, after.last - b.last)
  {
    hide Gain;
    GainGrows(b.refill, 0, if now > b.last then now - b.last else 0);
  }

  lemma {:induction false} CallsSpend(b: Bucket, times: seq<int>)
    requires Sane(b)
    ensures var (after, n) := Calls(b, times);
            && Sane(after) && after.capacity == b.capacity && after.refill == b.refill && b.last <= after.last
            && (after.last == b.last || exists i :: 0 <= i < |times| && times[i] == after.last)
            && after.tokens + n as real <= b.tokens + Gain(b.refill, after.last - b.last)
    decreases |times|
  {
    hide Take, Gain;
    if times != [] {
      var k := |times| - 1;
      CallsSpend(b, times[..k]);
      var (before, n) := Calls(b, times[..k]);
      TakeSpends(before, times[k]);
      var (after, allowed) := Take(before, times[k]);
      GainAdds(b.refill, before.last - b.last, after.last - before.last);
      if after.last != b.last && after.last == before.last {
        var i :| 0 <= i < k && times[..k][i] == before.last;
        assert times[i] == after.last;
      }
    } else {
      GainGrows(b.refill, 0, 0);
    }
  }

  /**
    The bound, for calls in any order of time: from any state on, while no call is later
    than `T`, the calls allowed are at most what was in the bucket and what `rate` brought
    until `T`.  A fresh bucket gives `burst + rate * (T - start)`, and, as the tokens never
    pass the capacity, every window of a run is bounded in the same way.
   */
  lemma AllowedIsBounded(b: Bucket, times: seq<int>, T: int)
    requires Sane(b) && b.last <= T
    requires forall i | 0 <= i < |times| :: times[i] <= T
    ensures var (after, n) := Calls(b, times);
            && n as real <= b.tokens + Gain(b.refill, T - b.last) <= b.capacity + Gain(b.refill, T - b.last)
            && 0.0 <= after.tokens <= b.capacity
  {
    hide Gain, Calls;
    CallsSpend(b, times);
    var (after, n) := Calls(b, times);
    GainGrows(b.refill, after.last - b.last, T - b.last);
  }

  /** Of the calls stamped at or before `T`, how many were allowed. */
  function AllowedUpTo(b: Bucket, times: seq<int>, T: int): nat {
    if times == [] then 0
    else
      var k := |times| - 1;
      AllowedUpTo(b, times[..k], T)
      + if times[k] <= T && Take(Calls(b, times[..k]).0, times[k]).1 then 1 else 0
  }

  ghost predicate InOrder(times: seq<int>) {
    forall i, j | 0 <= i < j < |times| :: times[i] <= times[j]
  }

  lemma {:induction false} OrderedStampsAreBounded(b: Bucket, times: seq<int>, T: int)
    requires Sane(b) && b.last <= T && InOrder(times)
    ensures AllowedUpTo(b, times, T) as real <= b.tokens + Gain(b.refill, T - b.last)
    decreases |times|
  {
    hide Gain, Take;
    if times != [] && times[|times| - 1] > T {
      OrderedStampsAreBounded(b, times[..|times| - 1], T);
    } else {
      EveryCallIsStamped(b, times, T);
      AllowedIsBounded(b, times, T);
    }
  }

  lemma {:induction false} EveryCallIsStamped(b: Bucket, times: seq<int>, T: int)
    requires forall i | 0 <= i < |times| :: times[i] <= T
    ensures AllowedUpTo(b, times, T) == Calls(b, times).1
    decreases |times|
  {
    hide Take;
    if times != [] {
      EveryCallIsStamped(b, times[..|times| - 1], T);
    }
  }

  /** An empty bucket that fills to `n + 2` tokens in one nanosecond after `T`. */
  function Empty(n: nat, T: int): Bucket {
    Bucket(0.0, (n + 2) as real, (n + 2) as real * NANOSECONDS as real, T)
  }

  lemma {:induction false} EmptyUntil(b: Bucket, times: seq<int>)
    requires b.tokens < 1.0 && forall i | 0 <= i < |times| :: times[i] <= b.last
    ensures Calls(b, times).0 == b
    decreases |times|
  {
    if times != [] {
      EmptyUntil(b, times[..|times| - 1]);
    }
  }

  lemma AtLeastOnce(times: real, x: real)
    requires times >= 1.0 && x >= 0.0
    ensures times * x >= x
  {
    assert (times - 1.0) * x >= 0.0;
  }

  /** At `x` tokens a nanosecond, the first nanosecond brings `x`. */
  lemma OneTickIsEnough(x: real, d: int)
    requires d > 0 && x >= 0.0
    ensures Gain(x * NANOSECONDS as real, d) >= x
  {
    var t := Seconds(d);
    assert t * NANOSECONDS as real == d as real;
    assert t * (x * NANOSECONDS as real) == (t * NANOSECONDS as real) * x;
    AtLeastOnce(d as real, x);
  }

  lemma OneTickFills(n: nat, T: int, now: int)
    requires now > T
    ensures Take(Empty(n, T), now).0.tokens == (n + 1) as real
  {
    hide Gain;
    OneTickIsEnough((n + 2) as real, now - T);
  }

  lemma TakesAtMostOne(b: Bucket, now: int)
    requires Sane(b)
    ensures Take(b, now).0.tokens >= b.tokens - 1.0
  {
    hide Gain;
    GainGrows(b.refill, 0, if now > b.last then now - b.last else 0);
  }

  /** After the first call later than `T` every call finds a token. */
  lemma {:induction false} FullAfterward(times: seq<int>, T: int, i: nat, k: nat)
    requires i < k <= |times| && times[i] > T && forall j | 0 <= j < i :: times[j] <= T
    ensures Calls(Empty(|times|, T), times[..k]).0.tokens >= (|times| + 1 - (k - i - 1)) as real
    decreases k
  {
    hide Take, Gain;
    var b := Empty(|times|, T);
    assert times[..k][..k - 1] == times[..k - 1] && times[..k][k - 1] == times[k - 1];
    if k == i + 1 {
      EmptyUntil(b, times[..i]);
      OneTickFills(|times|, T, times[i]);
    } else {
      FullAfterward(times, T, i, k - 1);
      CallsSpend(b, times[..k - 1]);
      TakesAtMostOne(Calls(b, times[..k - 1]).0, times[k - 1]);
    }
  }

  lemma {:induction false} CountedUpTo(b: Bucket, times: seq<int>, T: int, j: nat)
    requires j < |times| && times[j] <= T && Take(Calls(b, times[..j]).0, times[j]).1
    ensures AllowedUpTo(b, times, T) >= 1
    decreases |times|
  {
    hide Take, Calls;
    if j < |times| - 1 {
      assert times[..|times| - 1][..j] == times[..j];
      CountedUpTo(b, times[..|times| - 1], T, j);
    }
  }

  /** One step back is enough: an empty bucket serves a call stamped when it was empty. */
  lemma SteppingBackBreaksTheBound(times: seq<int>, i: nat, j: nat)
    requires i < j < |times| && times[i] > times[j] && forall k | 0 <= k < i :: times[k] <= times[j]
    ensures var b := Empty(|times|, times[j]);
            AllowedUpTo(b, times, times[j]) as real > b.tokens + Gain(b.refill, times[j] - b.last)
  {
    hide Calls, AllowedUpTo;
    var b := Empty(|times|, times[j]);
    FullAfterward(times, times[j], i, j);
    CallsSpend(b, times[..j]);
    var before := Calls(b, times[..j]).0;
    TakesFrom(before, times[j]);
    CountedUpTo(b, times, times[j], j);
  }

  lemma TakesFrom(b: Bucket, now: int)
    requires Sane(b) && b.tokens >= 1.0
    ensures Take(b, now).1
  {
    hide Gain;
    GainGrows(b.refill, 0, if now > b.last then now - b.last else 0);
  }

  lemma {:induction false} FirstAfter(times: seq<int>, j: nat, i: nat) returns (first: nat)
    requires i < j < |times| && times[i] > times[j]
    ensures first < j && times[first] > times[j] && forall k | 0 <= k < first :: times[k] <= times[j]
  {
    if k :| 0 <= k < i && times[k] > times[j] {
      first := FirstAfter(times, j, k);
    } else {
      first := i;
    }
  }

  /**
    Counted by their stamps, calls keep the bound from every bucket and up to every moment
    if and only if time never goes back between them.
   */
  lemma StampedIsBounded(times: seq<int>)
    ensures (forall b: Bucket, T: int | Sane(b) && b.last <= T ::
               AllowedUpTo(b, times, T) as real <= b.tokens + Gain(b.refill, T - b.last))
       <==> InOrder(times)
  {
    hide Gain, AllowedUpTo;
    if InOrder(times) {
      forall b: Bucket, T: int | Sane(b) && b.last <= T
        ensures AllowedUpTo(b, times, T) as real <= b.tokens + Gain(b.refill, T - b.last)
      {
        OrderedStampsAreBounded(b, times, T);
      }
    } else {
      var i, j :| 0 <= i < j < |times| && times[i] > times[j];
      var first := FirstAfter(times, j, i);
      SteppingBackBreaksTheBound(times, first, j);
      assert Sane(Empty(|times|, times[j]));
    }
  }

  /** At a usual rate too: three calls stamped 0 pass a bucket of burst two when one call in between is later. */
  lemma SteppingBackEscapesTheStamp()
    ensures var b := Fresh(1.0, 2.0, 0);
            AllowedUpTo(b, [0, 0, 100 * NANOSECONDS, 0], 0) as real > b.tokens + Gain(b.refill, 0 - b.last)
  {
    var b := Fresh(1.0, 2.0, 0);
    var late := 100 * NANOSECONDS;
    var times := [0, 0, late, 0];
    assert times[..3] == [0, 0, late] && times[..3][..2] == [0, 0] && times[..3][..2][..1] == [0];
    assert Calls(b, [0]).0 == b.(tokens := 1.0);
    assert Calls(b, [0, 0]).0 == b.(tokens := 0.0);
    assert Gain(1.0, late) == 100.0;
    assert Calls(b, [0, 0, late]).0 == b.(tokens := 1.0, last := late);
    assert AllowedUpTo(b, [0], 0) == 1;
    assert AllowedUpTo(b, [0, 0], 0) == 2;
    assert AllowedUpTo(b, [0, 0, late], 0) == 2;
  }

  /** Consecutive calls are at least one token's worth of time apart. */
  ghost predicate Spaced(times: seq<int>, rate: real) {
    forall i, j | 0 <= i && j == i + 1 && j < |times| :: times[i] < times[j] && Gain(rate, times[j] - times[i]) >= 1.0
  }

  /** A caller that keeps the rate is never refused. */
  lemma {:induction false} SpacedCallsAreAllowed(rate: real, burst: real, start: int, times: seq<int>)
    requires rate > 0.0 && burst >= 1.0
    requires Spaced(times, rate) && (times != [] ==> start <= times[0])
    ensures var (after, n) := Calls(Fresh(rate, burst, start), times);
            && n == |times| && 0.0 <= after.tokens && after.refill == rate && after.capacity == burst
            && after.last == if times == [] then start else times[|times| - 1]
    decreases |times|
  {
    hide Gain;
    if times != [] {
      var k := |times| - 1;
      SpacedCallsAreAllowed(rate, burst, start, times[..k]);
      var (before, n) := Calls(Fresh(rate, burst, start), times[..k]);
      if k > 0 {
        assert before.last == times[..k][k - 1] == times[k - 1];
        assert Refilled(before, times[k]).tokens >= 1.0;
      } else {
        assert before == Fresh(rate, burst, start);
        GainGrows(rate, 0, times[0] - start);
      }
    }
  }
  // ------------------------------------------------------------- the answers, exactly

  /** What a bucket answers to calls at these times. */
  function Answers(b: Bucket, times: seq<int>): (answers: seq<bool>)
    ensures |answers| == |times|
  {
    if times == [] then []
    else
      var k := |times| - 1;
      Answers(b, times[..k]) + [Take(Calls(b, times[..k]).0, times[k]).1]
  }

  function Granted(answers: seq<bool>): nat {
    if answers == [] then 0 else Granted(answers[..|answers| - 1]) + if answers[|answers| - 1] then 1 else 0
  }

  lemma {:induction false} GrantedAreCounted(b: Bucket, times: seq<int>)
    ensures Granted(Answers(b, times)) == Calls(b, times).1
    decreases |times|
  {
    hide Take;
    if times != [] {
      var k := |times| - 1;
      GrantedAreCounted(b, times[..k]);
      assert Answers(b, times)[..k] == Answers(b, times[..k]);
    }
  }

  lemma {:induction false} AllGranted(answers: seq<bool>)
    ensures Granted(answers) <= |answers|
    ensures Granted(answers) == |answers| ==> forall i | 0 <= i < |answers| :: answers[i]
    decreases |answers|
  {
    if answers != [] {
      AllGranted(answers[..|answers| - 1]);
    }
  }

  lemma {:induction false} GrantedConcat(a: seq<bool>, b: seq<bool>)
    ensures Granted(a + b) == Granted(a) + Granted(b)
    decreases |b|
  {
    if b == [] {
      assert a + b == a;
    } else {
      var k := |b| - 1;
      GrantedConcat(a, b[..k]);
      assert (a + b)[..|a + b| - 1] == a + b[..k];
    }
  }

  lemma {:induction false} AnswersOfPrefix(b: Bucket, times: seq<int>, k: nat)
    requires k <= |times|
    ensures Answers(b, times)[..k] == Answers(b, times[..k])
    decreases |times|
  {
    hide Take;
    if k < |times| {
      var n := |times| - 1;
      AnswersOfPrefix(b, times[..n], k);
      assert times[..n][..k] == times[..k];
      assert Answers(b, times)[..n] == Answers(b, times[..n]);
      assert Answers(b, times)[..k] == Answers(b, times)[..n][..k];
    } else {
      assert times[..k] == times;
    }
  }

  /** How many of the calls from `i` up to but not including `k` were allowed. */
  lemma GrantedBetween(b: Bucket, times: seq<int>, i: nat, k: nat)
    requires i <= k <= |times|
    ensures Granted(Answers(b, times)[i..k]) == Calls(b, times[..k]).1 - Calls(b, times[..i]).1
  {
    hide Granted, Answers, Calls;
    var answers := Answers(b, times);
    AnswersOfPrefix(b, times, i);
    AnswersOfPrefix(b, times, k);
    GrantedAreCounted(b, times[..i]);
    GrantedAreCounted(b, times[..k]);
    assert answers[..k] == answers[..i] + answers[i..k];
    GrantedConcat(answers[..i], answers[i..k]);
  }

  /** What the window of calls from `i` to `k` leaves of its burst and its time. */
  function Left(rate: real, burst: real, start: int, times: seq<int>, i: nat, k: nat): real
    requires i <= k < |times|
  {
    var b := Fresh(rate, burst, start);
    burst + Gain(rate, times[k] - times[i]) - (Calls(b, times[..k]).1 - Calls(b, times[..i]).1) as real
  }

  /** The tokens a call finds. */
  function Level(rate: real, burst: real, start: int, times: seq<int>, k: nat): real
    requires k < |times|
  {
    Refilled(Calls(Fresh(rate, burst, start), times[..k]).0, times[k]).tokens
  }

  lemma RefilledAfterTake(b: Bucket, now: int, later: int)
    requires Sane(b) && b.last <= now <= later
    ensures var (after, allowed) := Take(b, now);
            Refilled(after, later).tokens
            == Min(b.capacity, Refilled(b, now).tokens - (if allowed then 1.0 else 0.0) + Gain(b.refill, later - now))
  {
    hide Gain;
    GainGrows(b.refill, 0, now - b.last);
    GainGrows(b.refill, 0, later - now);
  }

  lemma OneCallOn(b: Bucket, times: seq<int>, k: nat)
    requires 0 < k <= |times|
    ensures var (before, n) := Calls(b, times[..k - 1]);
            var (after, allowed) := Take(before, times[k - 1]);
            Calls(b, times[..k]) == (after, n + if allowed then 1 else 0)
  {
    assert times[..k][..k - 1] == times[..k - 1] && times[..k][k - 1] == times[k - 1];
  }

  /** From one call to the next: what it left, plus what time brought, up to the burst. */
  lemma LevelStep(rate: real, burst: real, start: int, times: seq<int>, k: nat)
    requires rate >= 0.0 && burst >= 0.0 && InOrder(times) && k < |times| && start <= times[0]
    ensures var b := Fresh(rate, burst, start);
            && (k == 0 ==> Level(rate, burst, start, times, k) == burst)
            && (k > 0 ==>
                  var spent := (Calls(b, times[..k]).1 - Calls(b, times[..k - 1]).1) as real;
                  Level(rate, burst, start, times, k)
                  == Min(burst, Level(rate, burst, start, times, k - 1) - spent + Gain(rate, times[k] - times[k - 1])))
  {
    var b := Fresh(rate, burst, start);
    if k == 0 {
      hide Gain;
      GainGrows(rate, 0, times[0] - start);
    } else {
      hide Gain, Calls, Take, Refilled, Min;
      CallsSpend(b, times[..k - 1]);
      LastIsCall(b, times[..k - 1], times[k - 1]);
      RefilledAfterTake(Calls(b, times[..k - 1]).0, times[k - 1], times[k]);
      OneCallOn(b, times, k);
    }
  }

  /** A bucket's own time is that of one of its calls, or its start. */
  lemma LastIsCall(b: Bucket, times: seq<int>, now: int)
    requires Sane(b) && b.last <= now && forall i | 0 <= i < |times| :: times[i] <= now
    ensures Calls(b, times).0.last <= now
  {
    CallsSpend(b, times);
  }

  lemma {:induction false} LevelIsLeastLeft(rate: real, burst: real, start: int, times: seq<int>, k: nat)
    requires rate >= 0.0 && burst >= 0.0 && InOrder(times) && k < |times| && start <= times[0]
    ensures forall i | 0 <= i <= k :: Level(rate, burst, start, times, k) <= Left(rate, burst, start, times, i, k)
    ensures exists i | 0 <= i <= k :: Level(rate, burst, start, times, k) == Left(rate, burst, start, times, i, k)
    decreases k
  {
    hide Gain, Level, Calls;
    LevelStep(rate, burst, start, times, k);
    GainGrows(rate, 0, 0);
    assert Left(rate, burst, start, times, k, k) == burst;
    if k > 0 {
      LevelIsLeastLeft(rate, burst, start, times, k - 1);
      forall i | 0 <= i < k
        ensures var spent := (Calls(Fresh(rate, burst, start), times[..k]).1
                              - Calls(Fresh(rate, burst, start), times[..k - 1]).1) as real;
                Left(rate, burst, start, times, i, k)
                == Left(rate, burst, start, times, i, k - 1) - spent + Gain(rate, times[k] - times[k - 1])
      {
        GainAdds(rate, times[k - 1] - times[i], times[k] - times[k - 1]);
      }
      var j :| 0 <= j <= k - 1
               && Level(rate, burst, start, times, k - 1) == Left(rate, burst, start, times, j, k - 1);
      assert Level(rate, burst, start, times, k) == burst
          || Level(rate, burst, start, times, k) == Left(rate, burst, start, times, j, k);
    }
  }

  function PerSecond(rate: real, nanoseconds: int): real {
    rate * (nanoseconds as real / 1_000_000_000.0)
  }

  /** Allowing call `k` keeps the calls allowed from `i` on within the burst and what the rate brought. */
  predicate Affordable(rate: real, burst: real, times: seq<int>, answers: seq<bool>, i: nat, k: nat)
    requires i <= k < |times| == |answers|
  {
    (Granted(answers[i..k]) + 1) as real <= burst + PerSecond(rate, times[k] - times[i])
  }

  lemma AffordableIsLeft(rate: real, burst: real, start: int, times: seq<int>, i: nat, k: nat)
    requires i <= k < |times|
    ensures Affordable(rate, burst, times, Answers(Fresh(rate, burst, start), times), i, k)
       <==> Left(rate, burst, start, times, i, k) >= 1.0
  {
    GrantedBetween(Fresh(rate, burst, start), times, i, k);
    GainIs(rate, times[k] - times[i]);
    hide Granted, Answers, Calls, Gain, PerSecond;
  }

  lemma GainIs(rate: real, d: int)
    ensures Gain(rate, d) == PerSecond(rate, d)
  {
  }

  /**
    Exactly which calls are refused, from the answers alone: a call is allowed if and only if
    in no window of calls that ends with it, allowing it makes more than the burst and what
    the rate brings in that window.
   */
  lemma AllowedExactlyWhen(rate: real, burst: real, start: int, times: seq<int>, k: nat)
    requires rate >= 0.0 && burst >= 0.0 && InOrder(times) && k < |times| && start <= times[0]
    ensures var answers := Answers(Fresh(rate, burst, start), times);
            answers[k] <==> forall i | 0 <= i <= k :: Affordable(rate, burst, times, answers, i, k)
  {
    AnswerAt(Fresh(rate, burst, start), times, k);
    LevelIsLeastLeft(rate, burst, start, times, k);
    forall i | 0 <= i <= k
      ensures Affordable(rate, burst, times, Answers(Fresh(rate, burst, start), times), i, k)
         <==> Left(rate, burst, start, times, i, k) >= 1.0
    {
      AffordableIsLeft(rate, burst, start, times, i, k);
    }
    hide Affordable, Answers, Left, Calls;
  }

  lemma AnswerAt(b: Bucket, times: seq<int>, k: nat)
    requires k < |times|
    ensures Answers(b, times)[k] == (Refilled(Calls(b, times[..k]).0, times[k]).tokens >= 1.0)
  {
    AnswersOfPrefix(b, times, k + 1);
    assert times[..k + 1][..k] == times[..k] && times[..k + 1][k] == times[k];
    assert Answers(b, times)[k] == Answers(b, times)[..k + 1][k];
  }
}

/** The two-dimensional limiter of session creation. */
module BootstrapLimits {
  import opened TokenBuckets

  const MINUTE := 60 * NANOSECONDS

  datatype Config = Config(userRate: real, userBurst: real, ipRate: real, ipBurst: real)

  type Buckets = map<string, Bucket>

  datatype Limiter = Limiter(ips: Buckets, users: Buckets, lastSweep: int)

  function AllowKey(m: Buckets, key: string, rate: real, burst: real, now: int): (Buckets, bool) {
    var bucket := if key in m then m[key] else Fresh(rate, burst, now);
    var (after, allowed) := Take(bucket, now);
    (m[key := after], allowed)
  }

  function NotFull(m: Buckets, burst: real, now: int): Buckets {
    map k | k in m && Available(m[k], now) < burst :: m[k]
  }

  function Swept(c: Config, l: Limiter, now: int): Limiter {
    if now - l.lastSweep < MINUTE then l
    else Limiter(NotFull(l.ips, c.ipBurst, now), NotFull(l.users, c.userBurst, now), now)
  }

  function IPStep(c: Config, l: Limiter, ip: string, now: int): (Limiter, bool) {
    if ip == "" || c.ipRate <= 0.0 || c.ipBurst <= 0.0 then (l, true)
    else
      var swept := Swept(c, l, now);
      var (ips, allowed) := AllowKey(swept.ips, ip, c.ipRate, c.ipBurst, now);
      (swept.(ips := ips), allowed)
  }

  function UserStep(c: Config, l: Limiter, user: string, now: int): (Limiter, bool) {
    if user == "" || c.userRate <= 0.0 || c.userBurst <= 0.0 then (l, true)
    else
      var (users, allowed) := AllowKey(l.users, user, c.userRate, c.userBurst, now);
      (l.(users := users), allowed)
  }

  type BucketMap = map<string, TokenBucket>

  /** No two entries share a bucket. */
  ghost predicate Distinct(m: BucketMap) {
    forall j, k | j in m && k in m && j != k :: m[j] != m[k]
  }

  ghost function States(m: BucketMap): Buckets
    reads m.Values
  {
    map k | k in m :: m[k].State()
  }

  lemma Submap(m: BucketMap, left: BucketMap)
    requires Distinct(m) && left.Keys <= m.Keys && forall k | k in left :: left[k] == m[k]
    ensures Distinct(left) && left.Values <= m.Values
  {
  }

  class BootstrapLimiter {
    var perUser: BucketMap
    var perIP: BucketMap
    const config: Config
    var lastSweep: int

    ghost function Footprint(): set<TokenBucket>
      reads this
    {
      perIP.Values + perUser.Values
    }

    ghost predicate Valid()
      reads this
    {
      Distinct(perIP) && Distinct(perUser) && perIP.Values !! perUser.Values
    }

    ghost function View(): Limiter
      reads this, Footprint()
    {
      Limiter(States(perIP), States(perUser), lastSweep)
    }

    constructor (config: Config, now: int)
      ensures Valid() && View() == Limiter(map[], map[], now) && this.config == config && Footprint() == {}
    {
      perUser, perIP, this.config, lastSweep := map[], map[], config, now;
    }

    method AllowIP(ip: string, now: int) returns (allowed: bool)
      requires Valid()
      modifies this, Footprint()
      ensures Valid() && fresh(Footprint() - old(Footprint()))
      ensures (View(), allowed) == IPStep(config, old(View()), ip, now)
    {
      hide AllowKey, Swept, Distinct, States;
      if ip == "" || config.ipRate <= 0.0 || config.ipBurst <= 0.0 {
        return true;
      }
      SweepLocked(now);
      label swept:
      ghost var users := perUser;
      perIP, allowed := Spend(perIP, ip, config.ipRate, config.ipBurst, now);
      assert unchanged@swept(users.Values);
    }

    method AllowUser(user: string, now: int) returns (allowed: bool)
      requires Valid()
      modifies this, Footprint()
      ensures Valid() && fresh(Footprint() - old(Footprint()))
      ensures (View(), allowed) == UserStep(config, old(View()), user, now)
    {
      hide AllowKey, Distinct, States;
      if user == "" || config.userRate <= 0.0 || config.userBurst <= 0.0 {
        return true;
      }
      perUser, allowed := Spend(perUser, user, config.userRate, config.userBurst, now);
    }

    method SweepLocked(now: int)
      requires Valid()
      modifies this
      ensures Valid() && Footprint() <= old(Footprint())
      ensures View() == Swept(config, old(View()), now)
    {
      hide Distinct, States, NotFull;
      if now - lastSweep < MINUTE {
        return;
      }
      lastSweep := now;
      var ips := Unfilled(perIP, config.ipBurst, now);
      Submap(perIP, ips);
      perIP := ips;
      var users := Unfilled(perUser, config.userBurst, now);
      Submap(perUser, users);
      perUser := users;
    }
  }

  /** Finds or makes the bucket of a key and spends from it. */
  method Spend(m: BucketMap, key: string, rate: real, burst: real, now: int) returns (r: BucketMap, allowed: bool)
    requires Distinct(m)
    modifies m.Values
    ensures Distinct(r) && fresh(r.Values - m.Values)
    ensures (States(r), allowed) == AllowKey(old(States(m)), key, rate, burst, now)
  {
    hide Take;
    r := m;
    if key !in m {
      var bucket := new TokenBucket(rate, burst, now);
      r := m[key := bucket];
    }
    ghost var before := States(r);
    assert before == if key in m then old(States(m)) else old(States(m))[key := Fresh(rate, burst, now)];
    allowed := r[key].Allow(now);
    assert States(r) == before[key := r[key].State()];
    assert before[key := r[key].State()] == old(States(m))[key := r[key].State()];
  }

  /** One deleting loop of the sweep. */
  method Unfilled(m: BucketMap, burst: real, now: int) returns (left: BucketMap)
    ensures left.Keys <= m.Keys && forall k | k in left :: left[k] == m[k]
    ensures States(left) == NotFull(States(m), burst, now)
  {
    hide Available;
    left := m;
    var todo := m.Keys;
    while todo != {}
      invariant todo <= m.Keys
      invariant left == map k | k in m && (k in todo || Available(m[k].State(), now) < burst) :: m[k]
      decreases |todo|
    {
      var key :| key in todo;
      var available := m[key].TokensAt(now);
      if available >= burst {
        left := left - {key};
      }
      todo := todo - {key};
    }
  }

  // ---------------------------------------------------- a limiter that never forgets

  datatype Call = FromIP(ip: string, at: int) | FromUser(user: string, at: int)

  function Step(c: Config, l: Limiter, call: Call): (Limiter, bool) {
    match call
    case FromIP(ip, at) => IPStep(c, l, ip, at)
    case FromUser(user, at) => UserStep(c, l, user, at)
  }

  /** The same step without the sweep. */
  function StepForever(c: Config, l: Limiter, call: Call): (Limiter, bool) {
    match call
    case FromIP(ip, at) =>
      if ip == "" || c.ipRate <= 0.0 || c.ipBurst <= 0.0 then (l, true)
      else
        var (ips, allowed) := AllowKey(l.ips, ip, c.ipRate, c.ipBurst, at);
        (l.(ips := ips), allowed)
    case FromUser(user, at) => UserStep(c, l, user, at)
  }

  function Run(c: Config, start: int, calls: seq<Call>): (Limiter, seq<bool>) {
    if calls == [] then (Limiter(map[], map[], start), [])
    else
      var (before, answers) := Run(c, start, calls[..|calls| - 1]);
      var (after, answer) := Step(c, before, calls[|calls| - 1]);
      (after, answers + [answer])
  }

  function RunForever(c: Config, start: int, calls: seq<Call>): (Limiter, seq<bool>) {
    if calls == [] then (Limiter(map[], map[], start), [])
    else
      var (before, answers) := RunForever(c, start, calls[..|calls| - 1]);
      var (after, answer) := StepForever(c, before, calls[|calls| - 1]);
      (after, answers + [answer])
  }

  predicate Shaped(b: Bucket, rate: real, burst: real, now: int) {
    b.capacity == burst && b.refill == rate && b.tokens <= burst && b.last <= now
  }

  /** What was swept from `kept` is full in `all`, and the rest is the same. */
  ghost predicate UpToFull(kept: Buckets, all: Buckets, rate: real, burst: real, now: int) {
    && (forall k | k in kept :: k in all && all[k] == kept[k])
    && (forall k | k in all :: Shaped(all[k], rate, burst, now) && (k !in kept ==> Available(all[k], now) >= burst))
  }

  lemma TokensGrow(b: Bucket, now: int, later: int)
    requires b.refill >= 0.0 && now <= later && b.tokens <= b.capacity
    ensures Available(b, now) <= Available(b, later)
  {
    hide Gain;
    if now > b.last {
      GainGrows(b.refill, now - b.last, later - b.last);
    } else if later > b.last {
      GainGrows(b.refill, 0, later - b.last);
    }
  }

  lemma UpToFullLater(kept: Buckets, all: Buckets, rate: real, burst: real, now: int, later: int)
    requires rate > 0.0 && now <= later && UpToFull(kept, all, rate, burst, now)
    ensures UpToFull(kept, all, rate, burst, later)
  {
    hide Available;
    forall k | k in all
      ensures Shaped(all[k], rate, burst, later) && (k !in kept ==> Available(all[k], later) >= burst)
    {
      TokensGrow(all[k], now, later);
    }
  }

  lemma SweepKeepsUpToFull(kept: Buckets, all: Buckets, rate: real, burst: real, now: int)
    requires UpToFull(kept, all, rate, burst, now)
    ensures UpToFull(NotFull(kept, burst, now), all, rate, burst, now)
  {
    hide Available, Shaped;
  }

  /** A full bucket and no bucket at all behave alike from here on. */
  lemma FullIsFresh(b: Bucket, rate: real, burst: real, now: int)
    requires Shaped(b, rate, burst, now) && Available(b, now) >= burst
    ensures Take(b, now) == Take(Fresh(rate, burst, now), now)
  {
    assert Refilled(b, now) == Fresh(rate, burst, now);
  }

  lemma AllowKeepsShape(b: Bucket, rate: real, burst: real, now: int)
    requires Shaped(b, rate, burst, now)
    ensures Shaped(Take(b, now).0, rate, burst, now)
  {
  }

  lemma AllowKeyAgrees(kept: Buckets, all: Buckets, key: string, rate: real, burst: real, now: int)
    requires rate > 0.0 && UpToFull(kept, all, rate, burst, now)
    ensures var (kept', a) := AllowKey(kept, key, rate, burst, now);
            var (all', b) := AllowKey(all, key, rate, burst, now);
            a == b && UpToFull(kept', all', rate, burst, now)
  {
    hide Available, Take;
    if key !in kept && key in all {
      FullIsFresh(all[key], rate, burst, now);
    }
    var bucket := if key in all then all[key] else Fresh(rate, burst, now);
    assert Shaped(bucket, rate, burst, now);
    AllowKeepsShape(bucket, rate, burst, now);
  }

  predicate Monotone(start: int, calls: seq<Call>) {
    && (forall i | 0 <= i < |calls| :: start <= calls[i].at)
    && (forall i, j | 0 <= i < j < |calls| :: calls[i].at <= calls[j].at)
  }

  function Clock(start: int, calls: seq<Call>): int {
    if calls == [] then start else calls[|calls| - 1].at
  }

  /** The two limiters agree on both sides that are in use. */
  ghost predicate Alike(c: Config, kept: Limiter, all: Limiter, now: int) {
    && (c.ipRate > 0.0 ==> UpToFull(kept.ips, all.ips, c.ipRate, c.ipBurst, now))
    && (c.userRate > 0.0 ==> UpToFull(kept.users, all.users, c.userRate, c.userBurst, now))
  }

  lemma AlikeLater(c: Config, kept: Limiter, all: Limiter, now: int, later: int)
    requires now <= later && Alike(c, kept, all, now)
    ensures Alike(c, kept, all, later)
  {
    hide UpToFull;
    if c.ipRate > 0.0 {
      UpToFullLater(kept.ips, all.ips, c.ipRate, c.ipBurst, now, later);
    }
    if c.userRate > 0.0 {
      UpToFullLater(kept.users, all.users, c.userRate, c.userBurst, now, later);
    }
  }

  lemma SweptAlike(c: Config, kept: Limiter, all: Limiter, now: int)
    requires Alike(c, kept, all, now)
    ensures Alike(c, Swept(c, kept, now), all, now)
  {
    hide UpToFull, NotFull;
    if c.ipRate > 0.0 {
      SweepKeepsUpToFull(kept.ips, all.ips, c.ipRate, c.ipBurst, now);
    }
    if c.userRate > 0.0 {
      SweepKeepsUpToFull(kept.users, all.users, c.userRate, c.userBurst, now);
    }
  }

  lemma StepAlike(c: Config, kept: Limiter, all: Limiter, call: Call)
    requires Alike(c, kept, all, call.at)
    ensures Step(c, kept, call).1 == StepForever(c, all, call).1
    ensures Alike(c, Step(c, kept, call).0, StepForever(c, all, call).0, call.at)
  {
    hide UpToFull, AllowKey, Swept;
    match call
    case FromIP(ip, at) =>
      if !(ip == "" || c.ipRate <= 0.0 || c.ipBurst <= 0.0) {
        SweptAlike(c, kept, all, at);
        AllowKeyAgrees(Swept(c, kept, at).ips, all.ips, ip, c.ipRate, c.ipBurst, at);
      }
    case FromUser(user, at) =>
      if !(user == "" || c.userRate <= 0.0 || c.userBurst <= 0.0) {
        AllowKeyAgrees(kept.users, all.users, user, c.userRate, c.userBurst, at);
      }
  }

  lemma {:induction false} RunsAlike(c: Config, start: int, calls: seq<Call>)
    requires Monotone(start, calls)
    ensures Run(c, start, calls).1 == RunForever(c, start, calls).1
    ensures Alike(c, Run(c, start, calls).0, RunForever(c, start, calls).0, Clock(start, calls))
    decreases |calls|
  {
    if calls != [] {
      hide Step, StepForever, UpToFull;
      var prefix, call := calls[..|calls| - 1], calls[|calls| - 1];
      RunsAlike(c, start, prefix);
      AlikeLater(c, Run(c, start, prefix).0, RunForever(c, start, prefix).0, Clock(start, prefix), call.at);
      StepAlike(c, Run(c, start, prefix).0, RunForever(c, start, prefix).0, call);
    }
  }

  /** Sweeping full buckets is unobservable: every answer is the one a limiter that never sweeps gives. */
  lemma SweepingIsUnobservable(c: Config, start: int, calls: seq<Call>)
    requires Monotone(start, calls)
    ensures Run(c, start, calls).1 == RunForever(c, start, calls).1
  {
    RunsAlike(c, start, calls);
  }

  // ------------------------------------------------------------ one key on its own

  /** A client address or a user: the two kinds of key that are limited. */
  datatype Key = IP(ip: string) | User(user: string) {
    function Rate(c: Config): real {
      if IP? then c.ipRate else c.userRate
    }

    function Burst(c: Config): real {
      if IP? then c.ipBurst else c.userBurst
    }

    /** An empty key, or a dimension without a rate or a burst, is let through. */
    predicate Limited(c: Config) {
      && (if IP? then ip != "" else user != "")
      && Rate(c) > 0.0 && Burst(c) > 0.0
    }

    predicate Makes(call: Call) {
      match call
      case FromIP(i, _) => this == IP(i)
      case FromUser(u, _) => this == User(u)
    }
  }

  /** When the calls of one key were made. */
  function TimesOf(calls: seq<Call>, key: Key): seq<int> {
    if calls == [] then []
    else
      var k := |calls| - 1;
      var before := TimesOf(calls[..k], key);
      if key.Makes(calls[k]) then before + [calls[k].at] else before
  }

  /** What the calls of one key were answered. */
  function AnswersTo(calls: seq<Call>, answers: seq<bool>, key: Key): seq<bool>
    requires |answers| == |calls|
  {
    if calls == [] then []
    else
      var k := |calls| - 1;
      var before := AnswersTo(calls[..k], answers[..k], key);
      if key.Makes(calls[k]) then before + [answers[k]] else before
  }

  /** A bucket made at the first of these times. */
  function Alone(c: Config, key: Key, times: seq<int>): Bucket
    requires times != []
  {
    Fresh(key.Rate(c), key.Burst(c), times[0])
  }

  function BucketsOf(l: Limiter, key: Key): Buckets {
    if key.IP? then l.ips else l.users
  }

  function Name(key: Key): string {
    if key.IP? then key.ip else key.user
  }

  /** A limiter that never sweeps keeps for each key the bucket that the key's own calls left. */
  ghost predicate KeepsAlone(c: Config, start: int, calls: seq<Call>, key: Key) {
    var m, times := BucketsOf(RunForever(c, start, calls).0, key), TimesOf(calls, key);
    if times == [] then Name(key) !in m
    else Name(key) in m && m[Name(key)] == Calls(Alone(c, key, times), times).0
  }

  lemma RunIsLong(c: Config, start: int, calls: seq<Call>)
    ensures |RunForever(c, start, calls).1| == |calls| == |Run(c, start, calls).1|
  {
  }

  /** One call on the limiter that never sweeps, seen from one key. */
  lemma StepForeverOn(c: Config, l: Limiter, call: Call, key: Key)
    requires key.Limited(c)
    ensures var (after, answer) := StepForever(c, l, call);
            var m := BucketsOf(l, key);
            var bucket := if Name(key) in m then m[Name(key)] else Fresh(key.Rate(c), key.Burst(c), call.at);
            if key.Makes(call) then
              && Name(key) in BucketsOf(after, key)
              && (BucketsOf(after, key)[Name(key)], answer) == Take(bucket, call.at)
            else
              && (Name(key) in BucketsOf(after, key) <==> Name(key) in m)
              && (Name(key) in m ==> BucketsOf(after, key)[Name(key)] == m[Name(key)])
  {
    hide Take;
  }

  lemma {:induction false} KeysAreAlone(c: Config, start: int, calls: seq<Call>, key: Key)
    requires key.Limited(c)
    ensures |RunForever(c, start, calls).1| == |calls|
    ensures KeepsAlone(c, start, calls, key)
    ensures var times := TimesOf(calls, key);
            AnswersTo(calls, RunForever(c, start, calls).1, key)
            == if times == [] then [] else Answers(Alone(c, key, times), times)
    decreases |calls|
  {
    hide Take, StepForever;
    if calls != [] {
      var k := |calls| - 1;
      var call, before := calls[k], RunForever(c, start, calls[..k]);
      KeysAreAlone(c, start, calls[..k], key);
      StepForeverOn(c, before.0, call, key);
      var whole := RunForever(c, start, calls);
      assert whole == (StepForever(c, before.0, call).0, before.1 + [StepForever(c, before.0, call).1]);
      assert whole.1[..k] == before.1;
      OneTimeMore(c, key, TimesOf(calls[..k], key), call.at);
      hide RunForever, Calls, Answers;
    }
  }

  lemma OneTimeMore(c: Config, key: Key, times: seq<int>, now: int)
    ensures var all := times + [now];
            var bucket := if times == [] then Fresh(key.Rate(c), key.Burst(c), now)
                          else Calls(Alone(c, key, times), times).0;
            && Calls(Alone(c, key, all), all).0 == Take(bucket, now).0
            && Answers(Alone(c, key, all), all)
               == (if times == [] then [] else Answers(Alone(c, key, times), times)) + [Take(bucket, now).1]
  {
    hide Take;
    assert (times + [now])[..|times|] == times;
  }

  /**
    Every key is limited on its own.  In every run whose clock does not go back, sweeps and
    the calls of all other keys included, the answers to one limited key are one for one
    those of a bucket of its own, made at its first call and asked at its times only.
   */
  lemma EachKeyHasItsOwnBucket(c: Config, start: int, calls: seq<Call>, key: Key)
    requires Monotone(start, calls) && key.Limited(c)
    ensures |Run(c, start, calls).1| == |calls|
    ensures var times := TimesOf(calls, key);
            AnswersTo(calls, Run(c, start, calls).1, key)
            == if times == [] then [] else Answers(Alone(c, key, times), times)
  {
    RunsAlike(c, start, calls);
    KeysAreAlone(c, start, calls, key);
  }

  /** In order, and none after `now`. */
  ghost predicate InOrderUntil(times: seq<int>, now: int) {
    InOrder(times) && forall i | 0 <= i < |times| :: times[i] <= now
  }

  lemma {:induction false} TimesInOrder(start: int, calls: seq<Call>, key: Key)
    requires Monotone(start, calls)
    ensures InOrderUntil(TimesOf(calls, key), Clock(start, calls))
    decreases |calls|
  {
    if calls != [] {
      var k := |calls| - 1;
      TimesInOrder(start, calls[..k], key);
      assert Clock(start, calls[..k]) <= calls[k].at;
      OneLater(TimesOf(calls[..k], key), Clock(start, calls[..k]), calls[k].at);
    }
  }

  lemma OneLater(times: seq<int>, now: int, later: int)
    requires InOrderUntil(times, now) && now <= later
    ensures InOrderUntil(times + [later], later) && InOrderUntil(times, later)
  {
  }

  /**
    The limiter seen from outside: call `k` of a limited key is allowed if and only if in no
    window of that key's own calls does allowing it pass the burst and what the rate brought.
   */
  lemma KeyAllowedExactlyWhen(c: Config, start: int, calls: seq<Call>, key: Key, k: nat)
    requires Monotone(start, calls) && key.Limited(c) && k < |TimesOf(calls, key)|
    ensures |Run(c, start, calls).1| == |calls|
    ensures var times, answers := TimesOf(calls, key), AnswersTo(calls, Run(c, start, calls).1, key);
            && |answers| == |times|
            && (answers[k] <==> forall i | 0 <= i <= k ::
                  Affordable(key.Rate(c), key.Burst(c), times, answers, i, k))
  {
    hide Run, Answers, AnswersTo, TimesOf, Affordable;
    EachKeyHasItsOwnBucket(c, start, calls, key);
    TimesInOrder(start, calls, key);
    AllowedExactlyWhen(key.Rate(c), key.Burst(c), TimesOf(calls, key)[0], TimesOf(calls, key), k);
  }

  /** From its first call on, a key is granted at most its burst and what its rate brings. */
  lemma GrantsToAKeyAreBounded(c: Config, start: int, calls: seq<Call>, key: Key)
    requires Monotone(start, calls) && key.Limited(c) && TimesOf(calls, key) != []
    ensures |Run(c, start, calls).1| == |calls|
    ensures var first, last := TimesOf(calls, key)[0], TimesOf(calls, key)[|TimesOf(calls, key)| - 1];
            Granted(AnswersTo(calls, Run(c, start, calls).1, key)) as real
            <= key.Burst(c) + PerSecond(key.Rate(c), last - first)
  {
    hide Run, Answers, Calls, AnswersTo, TimesOf;
    EachKeyHasItsOwnBucket(c, start, calls, key);
    TimesInOrder(start, calls, key);
    var times := TimesOf(calls, key);
    GrantedAreCounted(Alone(c, key, times), times);
    AllowedIsBounded(Alone(c, key, times), times, times[|times| - 1]);
  }

  /** A key whose calls keep its rate is never refused. */
  lemma SpacedKeyIsNeverRefused(c: Config, start: int, calls: seq<Call>, key: Key)
    requires Monotone(start, calls) && key.Limited(c) && key.Burst(c) >= 1.0
    requires Spaced(TimesOf(calls, key), key.Rate(c))
    ensures |Run(c, start, calls).1| == |calls|
    ensures forall i | 0 <= i < |calls| && key.Makes(calls[i]) :: Run(c, start, calls).1[i]
  {
    EachKeyHasItsOwnBucket(c, start, calls, key);
    var times := TimesOf(calls, key);
    if times != [] {
      SpacedCallsAreAllowed(key.Rate(c), key.Burst(c), times[0], times);
      GrantedAreCounted(Alone(c, key, times), times);
      AllGranted(Answers(Alone(c, key, times), times));
    }
    AnswersAreThere(calls, Run(c, start, calls).1, key);
  }

  /** No answer to a key is left out of its list. */
  lemma {:induction false} AnswersAreThere(calls: seq<Call>, answers: seq<bool>, key: Key)
    requires |answers| == |calls|
    ensures forall i | 0 <= i < |calls| && key.Makes(calls[i]) :: answers[i] in AnswersTo(calls, answers, key)
    decreases |calls|
  {
    if calls != [] {
      var k := |calls| - 1;
      AnswersAreThere(calls[..k], answers[..k], key);
      forall i | 0 <= i < |calls| && key.Makes(calls[i]) ensures answers[i] in AnswersTo(calls, answers, key) {
        if i < k {
          assert answers[..k][i] == answers[i] && calls[..k][i] == calls[i];
        }
      }
    }
  }

  /** What is not limited is never refused, whatever the clock does, and leaves no trace. */
  lemma {:induction false} UnlimitedKeysPass(c: Config, start: int, calls: seq<Call>, key: Key)
    requires !key.Limited(c)
    ensures |Run(c, start, calls).1| == |calls|
    ensures forall i | 0 <= i < |calls| && key.Makes(calls[i]) :: Run(c, start, calls).1[i]
    ensures calls != [] && key.Makes(calls[|calls| - 1]) ==>
              Run(c, start, calls).0 == Run(c, start, calls[..|calls| - 1]).0
    decreases |calls|
  {
    hide AllowKey, Swept;
    if calls != [] {
      UnlimitedKeysPass(c, start, calls[..|calls| - 1], key);
    }
  }

  // ------------------------------------------------------------------ what a sweep keeps

  /** The tokens a bucket would hold now reach the burst. */
  predicate FullAt(b: Bucket, burst: real, now: int) {
    b.tokens + (if now > b.last then b.refill * ((now - b.last) as real / 1_000_000_000.0) else 0.0) >= burst
  }

  lemma FullIsAvailable(b: Bucket, rate: real, burst: real, now: int)
    requires Shaped(b, rate, burst, now)
    ensures Available(b, now) >= burst <==> FullAt(b, burst, now)
  {
  }

  /** Every bucket of a run belongs to its side's rate and burst and is not from the future. */
  ghost predicate AllShaped(c: Config, l: Limiter, now: int) {
    && (c.ipRate > 0.0 ==> forall k | k in l.ips :: Shaped(l.ips[k], c.ipRate, c.ipBurst, now))
    && (c.userRate > 0.0 ==> forall k | k in l.users :: Shaped(l.users[k], c.userRate, c.userBurst, now))
  }

  lemma RunIsShaped(c: Config, start: int, calls: seq<Call>)
    requires Monotone(start, calls)
    ensures AllShaped(c, Run(c, start, calls).0, Clock(start, calls))
  {
    RunsAlike(c, start, calls);
  }

  /**
    A sweep happens exactly when a minute has passed since the last, and forgets exactly the
    full buckets; the bucket of the call itself is there afterward.
   */
  lemma SweepForgetsTheFull(c: Config, start: int, calls: seq<Call>, ip: string, now: int)
    requires Monotone(start, calls) && Clock(start, calls) <= now && IP(ip).Limited(c)
    ensures var before := Run(c, start, calls).0;
            var after := IPStep(c, before, ip, now).0;
            var due := now - before.lastSweep >= 60_000_000_000;
            && after.lastSweep == (if due then now else before.lastSweep)
            && ip in after.ips
            && (forall k | k != ip ::
                  k in after.ips <==> k in before.ips && !(due && FullAt(before.ips[k], c.ipBurst, now)))
            && (c.userRate > 0.0 ==> forall k ::
                  k in after.users <==> k in before.users && !(due && FullAt(before.users[k], c.userBurst, now)))
  {
    hide Run, Take, Available, FullAt;
    var before := Run(c, start, calls).0;
    RunIsShaped(c, start, calls);
    forall k | k in before.ips
      ensures Available(before.ips[k], now) >= c.ipBurst <==> FullAt(before.ips[k], c.ipBurst, now)
    {
      FullIsAvailable(before.ips[k], c.ipRate, c.ipBurst, now);
    }
    if c.userRate > 0.0 {
      forall k | k in before.users
        ensures Available(before.users[k], now) >= c.userBurst <==> FullAt(before.users[k], c.userBurst, now)
      {
        FullIsAvailable(before.users[k], c.userRate, c.userBurst, now);
      }
    }
  }

  /** Only the calls of addresses sweep. */
  lemma UserCallsDoNotSweep(c: Config, l: Limiter, user: string, now: int)
    requires User(user).Limited(c)
    ensures var after := UserStep(c, l, user, now).0;
            && after.ips == l.ips && after.lastSweep == l.lastSweep
            && after.users.Keys == l.users.Keys + {user}
            && forall k | k in l.users && k != user :: after.users[k] == l.users[k]
  {
    hide Take;
    assert UserStep(c, l, user, now).0.users.Keys == l.users.Keys + {user};
  }
}

/**
  Replay protection of the internal control calls.  Durations and seconds are Go's 64-bit
  integers; the clock's own times are integers, in nanoseconds since 1970.
 */
module NonceCache {
  import opened Wire
  import opened Wrappers
  import TokenBuckets

  /** A control request: what its headers say, and whether its signature verifies. */
  datatype Request = Request(complete: bool, knownKey: bool, timestamp: Option<int64>, nonce: string, authentic: bool)

  datatype Verdict = Accepted | MissingHeaders | UnknownKey | ClockSkew | BadSignature | Replayed

  type Nonces = map<string, int>

  /** Seconds from the year 1, where Go starts counting, to 1970. */
  const UNIX_TO_INTERNAL := 62_135_596_800

  /** The moment `time.Unix` makes of a timestamp: adding the two counts of seconds wraps. */
  function UnixTime(timestamp: int64): int {
    (WrapInt64(timestamp + UNIX_TO_INTERNAL) - UNIX_TO_INTERNAL) * TokenBuckets.NANOSECONDS
  }

  const MIN_INT64: int64 := -0x8000_0000_0000_0000
  const MAX_INT64: int64 := 0x7fff_ffff_ffff_ffff

  /** `Time.Sub` saturates. */
  function Sub(now: int, earlier: int): int64 {
    var d := now - earlier;
    if d < MIN_INT64 then MIN_INT64 else if d > MAX_INT64 then MAX_INT64 else d
  }

  /** How far apart clock and timestamp are; negating the smallest duration gives it back. */
  function Drift(timestamp: int64, now: int): int64 {
    var d: int := Sub(now, UnixTime(timestamp));
    if d < 0 then WrapInt64(-d) else d
  }

  /** How far before now entries are dropped, as the negative duration of the source. */
  function Window(maxSkew: int64): int64 {
    WrapInt64(-2 * maxSkew)
  }

  function Recent(nonces: Nonces, cutoff: int): Nonces {
    map n | n in nonces && nonces[n] >= cutoff :: nonces[n]
  }

  function Remember(nonces: Nonces, nonce: string, now: int, maxSkew: int64): (Nonces, bool) {
    if nonce in nonces then (nonces, false)
    else (Recent(nonces, now + Window(maxSkew))[nonce := now], true)
  }

  function Judge(nonces: Nonces, r: Request, now: int, maxSkew: int64): (Nonces, Verdict) {
    if !r.complete || r.nonce == "" then (nonces, MissingHeaders)
    else if !r.knownKey then (nonces, UnknownKey)
    else if r.timestamp.None? || Drift(r.timestamp.value, now) > maxSkew then (nonces, ClockSkew)
    else if !r.authentic then (nonces, BadSignature)
    else
      var (after, isNew) := Remember(nonces, r.nonce, now, maxSkew);
      (after, if isNew then Accepted else Replayed)
  }

  class HMACValidator {
    const maxSkew: int64
    var nonces: Nonces

    constructor (maxSkew: int64)
      ensures this.maxSkew == maxSkew && nonces == map[]
    {
      this.maxSkew, nonces := maxSkew, map[];
    }

    method Validate(r: Request, now: int) returns (verdict: Verdict)
      modifies this
      ensures (nonces, verdict) == Judge(old(nonces), r, now, maxSkew)
    {
      if !r.complete || r.nonce == "" {
        return MissingHeaders;
      }
      if !r.knownKey {
        return UnknownKey;
      }
      if r.timestamp.None? {
        return ClockSkew;
      }
      var drift := Sub(now, UnixTime(r.timestamp.value));
      if drift < 0 {
        drift := WrapInt64(-drift);
      }
      if drift > maxSkew {
        return ClockSkew;
      }
      if !r.authentic {
        return BadSignature;
      }
      var isNew := RememberNonce(r.nonce, now);
      verdict := if isNew then Accepted else Replayed;
    }

    method RememberNonce(nonce: string, now: int) returns (isNew: bool)
      modifies this
      ensures (nonces, isNew) == Remember(old(nonces), nonce, now, maxSkew)
    {
      if nonce in nonces {
        return false;
      }
      var cutoff := now + Window(maxSkew);
      var all, todo := nonces, nonces.Keys;
      while todo != {}
        invariant todo <= all.Keys
        invariant nonces == map n | n in all && (n in todo || all[n] >= cutoff) :: all[n]
        decreases |todo|
      {
        var value :| value in todo;
        if nonces[value] < cutoff {
          nonces := nonces - {value};
        }
        todo := todo - {value};
      }
      assert nonces == Recent(all, cutoff);
      nonces := nonces[nonce := now];
      isNew := true;
    }
  }

  // ------------------------------------------------------------------------ runs

  datatype Call = Call(request: Request, at: int)

  function Run(calls: seq<Call>, maxSkew: int64): Nonces {
    if calls == [] then map[]
    else Judge(Run(calls[..|calls| - 1], maxSkew), calls[|calls| - 1].request, calls[|calls| - 1].at, maxSkew).0
  }

  /** The verdict on call `i` of a run. */
  function VerdictOf(calls: seq<Call>, i: nat, maxSkew: int64): Verdict
    requires i < |calls|
  {
    Judge(Run(calls[..i], maxSkew), calls[i].request, calls[i].at, maxSkew).1
  }

  predicate Monotone(calls: seq<Call>) {
    forall i, j | 0 <= i < j < |calls| :: calls[i].at <= calls[j].at
  }

  /** The same timestamp and nonce. */
  predicate SamePair(a: Request, b: Request) {
    a.timestamp == b.timestamp && a.nonce == b.nonce
  }

  /** An accepted nonce is remembered until it lies before the cutoff. */
  lemma {:induction false} StillRemembered(calls: seq<Call>, i: nat, n: nat, maxSkew: int64)
    requires Monotone(calls) && i < n < |calls|
    requires VerdictOf(calls, i, maxSkew) == Accepted
    requires calls[i].at >= calls[n].at + Window(maxSkew)
    ensures var nonces := Run(calls[..n], maxSkew);
            calls[i].request.nonce in nonces && nonces[calls[i].request.nonce] == calls[i].at
    decreases n
  {
    hide Drift, Window;
    assert calls[..n][..n - 1] == calls[..n - 1] && calls[..n][n - 1] == calls[n - 1];
    if i < n - 1 {
      StillRemembered(calls, i, n - 1, maxSkew);
    }
  }

  /**
    When a pair accepted at some moment can be accepted again.  Skews that doubling does not
    overflow leave one way: a timestamp so far ahead that the difference saturates and its
    negation is still negative.
   */
  predicate Repeatable(timestamp: int64, at: int, maxSkew: int64) {
    var ahead := UnixTime(timestamp) - at;
    if maxSkew > 0x4000_0000_0000_0000 then true
    else if maxSkew > -0x4000_0000_0000_0000 then ahead >= 0x8000_0000_0000_0000
    else ahead > 0x1_8000_0000_0000_0000 + 2 * maxSkew
  }

  /** Two moments that pass the skew test lie within the window, but for repeatable pairs. */
  lemma PassesWithinWindow(timestamp: int64, at: int, now: int, maxSkew: int64)
    requires at <= now && Drift(timestamp, at) <= maxSkew && Drift(timestamp, now) <= maxSkew
    requires !Repeatable(timestamp, at, maxSkew)
    ensures at >= now + Window(maxSkew)
  {
    hide UnixTime;
  }

  /**
    Forgetting is safe.  Although old entries are dropped, no timestamp and nonce pair is
    accepted twice in a run, unless it is repeatable: when the entry is gone the timestamp
    is outside the skew.
   */
  lemma AcceptedAtMostOnce(calls: seq<Call>, i: nat, j: nat, maxSkew: int64)
    requires Monotone(calls) && i < j < |calls|
    requires VerdictOf(calls, i, maxSkew) == Accepted && VerdictOf(calls, j, maxSkew) == Accepted
    requires !Repeatable(calls[i].request.timestamp.value, calls[i].at, maxSkew)
    ensures !SamePair(calls[i].request, calls[j].request)
  {
    hide Run, Repeatable, Drift, Window;
    if SamePair(calls[i].request, calls[j].request) {
      PassesWithinWindow(calls[i].request.timestamp.value, calls[i].at, calls[j].at, maxSkew);
      StillRemembered(calls, i, j, maxSkew);
      assert false;
    }
  }

  lemma {:induction false} LongerThanAll(keys: set<string>) returns (n: string)
    ensures n != "" && forall k | k in keys :: |k| < |n|
    decreases |keys|
  {
    if keys == {} {
      n := "n";
    } else {
      var k :| k in keys;
      n := LongerThanAll(keys - {k});
      n := if |k| < |n| then n else k + "n";
    }
  }

  /** The calls go on so that the last one repeats the pair of the run's last call, and is accepted. */
  ghost predicate Repeats(calls: seq<Call>, more: seq<Call>, maxSkew: int64)
    requires calls != []
  {
    var all := calls + more;
    && more != [] && Monotone(all)
    && SamePair(all[|all| - 1].request, calls[|calls| - 1].request)
    && VerdictOf(all, |all| - 1, maxSkew) == Accepted
  }

  /** Once an entry lies before the cutoff, another acceptance drops it. */
  lemma ForgottenAndRepeated(calls: seq<Call>, now: int, maxSkew: int64) returns (more: seq<Call>)
    requires Monotone(calls) && calls != [] && VerdictOf(calls, |calls| - 1, maxSkew) == Accepted
    requires var last := calls[|calls| - 1];
             && last.at <= now && last.at < now + Window(maxSkew)
             && Drift(last.request.timestamp.value, now) <= maxSkew
    ensures Repeats(calls, more, maxSkew)
  {
    hide Drift, Window;
    var last := calls[|calls| - 1];
    var nonces := Run(calls, maxSkew);
    assert nonces[last.request.nonce] == last.at;
    var other := LongerThanAll(nonces.Keys);
    var x := Call(last.request.(nonce := other), now);
    var again := Call(last.request, now);
    more := [x, again];
    var all := calls + more;
    var n := |calls|;
    assert all[..n] == calls && all[..n + 1] == calls + [x];
    assert (calls + [x])[..n] == calls;
    assert Run(calls + [x], maxSkew) == Recent(nonces, now + Window(maxSkew))[other := now];
    assert last.request.nonce !in Run(calls + [x], maxSkew);
  }

  /** A repeatable pair passes the skew test again when its entry is due. */
  lemma PassesBeyondWindow(timestamp: int64, at: int, maxSkew: int64) returns (now: int)
    requires Drift(timestamp, at) <= maxSkew && Repeatable(timestamp, at, maxSkew)
    ensures at <= now && at < now + Window(maxSkew) && Drift(timestamp, now) <= maxSkew
  {
    hide UnixTime;
    var T := UnixTime(timestamp);
    if maxSkew > 0x4000_0000_0000_0000 || -0x4000_0000_0000_0000 < maxSkew < 0 {
      now := at;
    } else if maxSkew >= 0 {
      now := if maxSkew == 0 then T else T + 1;
    } else {
      now := at - Window(maxSkew) + 1;
    }
  }

  /** A pair just accepted can be accepted again, in some continuation of the run, if and only if it is repeatable. */
  lemma AcceptedAgainWhen(calls: seq<Call>, maxSkew: int64)
    requires Monotone(calls) && calls != [] && VerdictOf(calls, |calls| - 1, maxSkew) == Accepted
    ensures var last := calls[|calls| - 1];
            (exists more :: Repeats(calls, more, maxSkew))
            <==> Repeatable(last.request.timestamp.value, last.at, maxSkew)
  {
    hide Drift, Window, Run, Repeatable;
    var k := |calls| - 1;
    var last := calls[k];
    if Repeatable(last.request.timestamp.value, last.at, maxSkew) {
      var now := PassesBeyondWindow(last.request.timestamp.value, last.at, maxSkew);
      var more := ForgottenAndRepeated(calls, now, maxSkew);
    }
    if more :| Repeats(calls, more, maxSkew) {
      var all := calls + more;
      assert all[..k] == calls[..k] && all[k] == last;
      if !Repeatable(last.request.timestamp.value, last.at, maxSkew) {
        AcceptedAtMostOnce(all, k, |all| - 1, maxSkew);
      }
    }
  }

  /**
    With the default skew of thirty seconds and a clock in 2023, a signed request stamped
    in the year 2603 is accepted, forgotten by the next request a minute later, and
    accepted again.
   */
  lemma FarFutureIsAcceptedTwice()
    ensures var skew := 30 * TokenBuckets.NANOSECONDS;
            var start := 1_700_000_000 * TokenBuckets.NANOSECONDS;
            var far := Request(true, true, Some(20_000_000_000), "n", true);
            var near := Request(true, true, Some(1_700_000_061), "m", true);
            var later := start + 61 * TokenBuckets.NANOSECONDS;
            var calls := [Call(far, start), Call(near, later), Call(far, later)];
            && Monotone(calls)
            && VerdictOf(calls, 0, skew) == VerdictOf(calls, 1, skew) == VerdictOf(calls, 2, skew) == Accepted
  {
    var skew := 30 * TokenBuckets.NANOSECONDS;
    var start := 1_700_000_000 * TokenBuckets.NANOSECONDS;
    var far := Request(true, true, Some(20_000_000_000), "n", true);
    var near := Request(true, true, Some(1_700_000_061), "m", true);
    var later := start + 61 * TokenBuckets.NANOSECONDS;
    var calls := [Call(far, start), Call(near, later), Call(far, later)];
    assert Window(skew) == -60 * TokenBuckets.NANOSECONDS;
    assert Drift(20_000_000_000, start) == Drift(20_000_000_000, later) == MIN_INT64;
    assert Drift(1_700_000_061, later) == 0;
    hide Drift, Window;
    assert calls[..0] == [] && calls[..1] == [calls[0]] && calls[..2] == [calls[0], calls[1]];
    assert calls[..2][..1] == calls[..1] && calls[..1][..0] == [];
    assert Run(calls[..1], skew) == map["n" := start];
    assert Run(calls[..2], skew) == map["m" := later];
  }

  // -------------------------------------------------- what an acceptance requires

  /** The moment a timestamp names; the few whose seconds overflow Go's count name one long past. */
  function Moment(timestamp: int64): int {
    if timestamp > 0x7fff_ffff_ffff_ffff - 62_135_596_800
    then (timestamp - 0x1_0000_0000_0000_0000) * 1_000_000_000
    else timestamp * 1_000_000_000
  }

  /** Clock and timestamp are close enough, or the timestamp is too far ahead for their difference. */
  predicate InTime(timestamp: int64, at: int, maxSkew: int64) {
    || Moment(timestamp) - maxSkew <= at <= Moment(timestamp) + maxSkew
    || at <= Moment(timestamp) - 0x8000_0000_0000_0000
    || maxSkew == 0x7fff_ffff_ffff_ffff
  }

  lemma DriftIsInTime(timestamp: int64, at: int, maxSkew: int64)
    ensures Drift(timestamp, at) <= maxSkew <==> InTime(timestamp, at, maxSkew)
  {
    assert UnixTime(timestamp) == Moment(timestamp);
    hide UnixTime, Moment;
  }

  /** Call `i` was accepted with this nonce, and no acceptance before call `j` has dropped it since. */
  ghost predicate RemembersFrom(calls: seq<Call>, i: nat, j: nat, nonce: string, maxSkew: int64)
    requires j <= |calls|
  {
    && i < j
    && calls[i].request.nonce == nonce
    && VerdictOf(calls, i, maxSkew) == Accepted
    && forall m | i < m < j && VerdictOf(calls, m, maxSkew) == Accepted ::
         calls[i].at >= calls[m].at + Window(maxSkew)
  }

  lemma OneCallMore(calls: seq<Call>, j: nat, maxSkew: int64)
    requires j < |calls|
    ensures Run(calls[..j + 1], maxSkew)
         == Judge(Run(calls[..j], maxSkew), calls[j].request, calls[j].at, maxSkew).0
  {
    assert calls[..j + 1][..j] == calls[..j] && calls[..j + 1][j] == calls[j];
  }

  lemma {:induction false} StoredWasAccepted(calls: seq<Call>, j: nat, nonce: string, maxSkew: int64) returns (i: nat)
    requires j <= |calls| && nonce in Run(calls[..j], maxSkew)
    ensures RemembersFrom(calls, i, j, nonce, maxSkew) && Run(calls[..j], maxSkew)[nonce] == calls[i].at
    decreases j
  {
    hide Drift, Window, Run;
    if j == 0 {
      NothingAtFirst(calls, maxSkew);
    } else {
      OneCallMore(calls, j - 1, maxSkew);
      if VerdictOf(calls, j - 1, maxSkew) == Accepted && calls[j - 1].request.nonce == nonce {
        i := j - 1;
      } else {
        i := StoredWasAccepted(calls, j - 1, nonce, maxSkew);
      }
    }
  }

  lemma NothingAtFirst(calls: seq<Call>, maxSkew: int64)
    ensures Run(calls[..0], maxSkew) == map[]
  {
  }

  lemma {:induction false} RememberedIsStored(calls: seq<Call>, i: nat, j: nat, nonce: string, maxSkew: int64)
    requires j <= |calls| && RemembersFrom(calls, i, j, nonce, maxSkew)
    ensures nonce in Run(calls[..j], maxSkew) && Run(calls[..j], maxSkew)[nonce] == calls[i].at
    decreases j
  {
    hide Drift, Window, Run;
    OneCallMore(calls, j - 1, maxSkew);
    if i < j - 1 {
      RememberedIsStored(calls, i, j - 1, nonce, maxSkew);
    }
  }

  /**
    The verdict on every call of every run, from the calls alone: which failing check is
    reported, and that nothing but a full pass is an acceptance.
   */
  lemma VerdictExplained(calls: seq<Call>, j: nat, maxSkew: int64)
    requires j < |calls|
    ensures var r, at := calls[j].request, calls[j].at;
            var verdict := VerdictOf(calls, j, maxSkew);
            var signed := r.complete && r.nonce != "";
            var timely := r.timestamp.Some? && InTime(r.timestamp.value, at, maxSkew);
            var used := exists i | 0 <= i < j :: RemembersFrom(calls, i, j, r.nonce, maxSkew);
            && (verdict == MissingHeaders <==> !signed)
            && (verdict == UnknownKey <==> signed && !r.knownKey)
            && (verdict == ClockSkew <==> signed && r.knownKey && !timely)
            && (verdict == BadSignature <==> signed && r.knownKey && timely && !r.authentic)
            && (verdict == Replayed <==> signed && r.knownKey && timely && r.authentic && used)
            && (verdict == Accepted <==> signed && r.knownKey && timely && r.authentic && !used)
  {
    var r := calls[j].request;
    hide Drift, InTime, Window, Run, RemembersFrom;
    if r.timestamp.Some? {
      DriftIsInTime(r.timestamp.value, calls[j].at, maxSkew);
    }
    if r.nonce in Run(calls[..j], maxSkew) {
      var i := StoredWasAccepted(calls, j, r.nonce, maxSkew);
      assert RemembersFrom(calls, i, j, r.nonce, maxSkew) && i < j by {
        RemembersEarlier(calls, i, j, r.nonce, maxSkew);
      }
    }
    forall i | 0 <= i < j && RemembersFrom(calls, i, j, r.nonce, maxSkew) ensures r.nonce in Run(calls[..j], maxSkew) {
      RememberedIsStored(calls, i, j, r.nonce, maxSkew);
    }
  }

  lemma RemembersEarlier(calls: seq<Call>, i: nat, j: nat, nonce: string, maxSkew: int64)
    requires j <= |calls| && RemembersFrom(calls, i, j, nonce, maxSkew)
    ensures i < j
  {
  }

  /** Only an acceptance touches the cache. */
  lemma OtherVerdictsChangeNothing(calls: seq<Call>, j: nat, maxSkew: int64)
    requires j < |calls| && VerdictOf(calls, j, maxSkew) != Accepted
    ensures Run(calls[..j + 1], maxSkew) == Run(calls[..j], maxSkew)
  {
    hide Drift, Window;
    OneCallMore(calls, j, maxSkew);
  }

  /** Nothing in the cache is from the future. */
  lemma {:induction false} RememberedIsPast(calls: seq<Call>, now: int, maxSkew: int64)
    requires Monotone(calls) && forall i | 0 <= i < |calls| :: calls[i].at <= now
    ensures forall n | n in Run(calls, maxSkew) :: Run(calls, maxSkew)[n] <= now
    decreases |calls|
  {
    hide Drift, Window;
    if calls != [] {
      RememberedIsPast(calls[..|calls| - 1], now, maxSkew);
    }
  }

  /**
    The cache is pruned: after an acceptance it holds the nonce just accepted, and of the
    others exactly those not before the cutoff.  Skews whose double fits put the cutoff twice
    the skew ago, so nothing in the cache is older.
   */
  lemma PrunedAfterAcceptance(calls: seq<Call>, maxSkew: int64)
    requires Monotone(calls) && calls != []
    requires VerdictOf(calls, |calls| - 1, maxSkew) == Accepted
    ensures var last := calls[|calls| - 1];
            var before, after := Run(calls[..|calls| - 1], maxSkew), Run(calls, maxSkew);
            && last.request.nonce in after && after[last.request.nonce] == last.at
            && (forall n | n != last.request.nonce ::
                  n in after <==> n in before && before[n] >= last.at + Window(maxSkew))
            && (forall n | n in after :: after[n] <= last.at)
            && (0 <= maxSkew <= 0x4000_0000_0000_0000 ==>
                  forall n | n in after :: last.at - 2 * maxSkew <= after[n])
  {
    RememberedIsPast(calls, calls[|calls| - 1].at, maxSkew);
    WindowOf(maxSkew);
    hide Drift, Window;
    var k := |calls| - 1;
    var before := Run(calls[..k], maxSkew);
    assert Run(calls, maxSkew) == Recent(before, calls[k].at + Window(maxSkew))[calls[k].request.nonce := calls[k].at];
    hide Run, VerdictOf, Monotone;
  }

  lemma WindowOf(maxSkew: int64)
    ensures 0 <= maxSkew <= 0x4000_0000_0000_0000 ==> Window(maxSkew) == -2 * maxSkew
  {
  }
}
