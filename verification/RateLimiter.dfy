/** The token-bucket rate limiter: lazily refilled buckets, one per (kind, identity). */
module RateLimiter {
  import opened Sequences

  datatype Kind = IngestCalls | QueryCalls
  type BucketKey = (Kind, string)

  datatype Bucket = Bucket(tokens: real, updated: real, rate: real, burst: real)

  function Max(a: real, b: real): real { if a < b then b else a }
  function Min(a: real, b: real): real { if a < b then a else b }

  /** Tokens earned while time passes. */
  function Earned(rate: real, elapsed: real): real { elapsed * rate }

  lemma EarnedAdds(rate: real, a: real, b: real)
    ensures Earned(rate, a + b) == Earned(rate, a) + Earned(rate, b)
    ensures rate > 0.0 && a >= 0.0 ==> Earned(rate, a) >= 0.0
  {
  }

  /** The fill level when a call arrives at `now`: full after a configuration change, else refilled. */
  function Level(b: Bucket, rate: real, capacity: real, now: real): real {
    if rate != b.rate || capacity != b.burst then capacity
    else Min(capacity, b.tokens + Earned(rate, now - b.updated))
  }

  function Consumed(b: Bucket, rate: real, burst: real, cost: real, now: real): (Bucket, bool) {
    if rate <= 0.0 then (b, true)
    else
      var capacity := Max(burst, cost);
      var level := Level(b, rate, capacity, now);
      if level >= cost then (Bucket(level - cost, now, rate, capacity), true)
      else (Bucket(level, now, rate, capacity), false)
  }

  class TokenBucket {
    var tokens: real
    var updated: real
    var rate: real
    var burst: real

    ghost function View(): Bucket
      reads this
    {
      Bucket(tokens, updated, rate, burst)
    }

    constructor (now: real)
      ensures View() == Bucket(0.0, now, 0.0, 0.0)
    {
      tokens, updated, rate, burst := 0.0, now, 0.0, 0.0;
    }

    method Consume(newRate: real, newBurst: real, cost: real, now: real) returns (ok: bool)
      modifies this
      ensures (View(), ok) == Consumed(old(View()), newRate, newBurst, cost, now)
    {
      if newRate <= 0.0 {
        return true;
      }
      var capacity := Max(newBurst, cost);
      if newRate != rate || capacity != burst {
        rate, burst, tokens, updated := newRate, capacity, capacity, now;
      } else {
        var elapsed := now - updated;
        tokens := Min(capacity, tokens + Earned(newRate, elapsed));
        updated := now;
      }
      if tokens >= cost {
        tokens := tokens - cost;
        return true;
      }
      return false;
    }
  }

  // ---- One bucket over a whole run ----

  datatype Call = Call(key: BucketKey, rate: real, burst: real, now: real)

  function Fresh(now: real): Bucket { Bucket(0.0, now, 0.0, 0.0) }

  /** The decisions for calls at the given times, all with the same rate and burst. */
  function Decisions(b: Bucket, rate: real, burst: real, times: seq<real>): (r: seq<bool>)
    ensures |r| == |times|
    decreases |times|
  {
    if times == [] then []
    else
      var (b', ok) := Consumed(b, rate, burst, 1.0, times[0]);
      [ok] + Decisions(b', rate, burst, times[1..])
  }

  ghost predicate NonDecreasing(times: seq<real>) { forall i, j :: 0 <= i <= j < |times| ==> times[i] <= times[j] }

  // ---- The reference: a log of accepted calls ----

  /** One more call at `now` keeps every window that starts at an accepted call within
      `capacity + rate * length`. */
  predicate Fits(accepted: seq<real>, rate: real, capacity: real, now: real) {
    forall i :: 0 <= i < |accepted| ==> (|accepted| - i + 1) as real <= capacity + Earned(rate, now - accepted[i])
  }

  function LogDecisions(accepted: seq<real>, rate: real, capacity: real, times: seq<real>): (r: seq<bool>)
    ensures |r| == |times|
    decreases |times|
  {
    if times == [] then []
    else if Fits(accepted, rate, capacity, times[0]) then
      [true] + LogDecisions(accepted + [times[0]], rate, capacity, times[1..])
    else [false] + LogDecisions(accepted, rate, capacity, times[1..])
  }

  /** What is left in every window that starts at an accepted call. */
  ghost function Allowance(accepted: seq<real>, rate: real, capacity: real, now: real, i: nat): real
    requires i < |accepted|
  {
    capacity + Earned(rate, now - accepted[i]) - (|accepted| - i) as real
  }

  /** The fill level is the least allowance, or the capacity if that is less. */
  ghost predicate LevelIs(level: real, accepted: seq<real>, rate: real, capacity: real, now: real) {
    && level <= capacity
    && (forall i :: 0 <= i < |accepted| ==> level <= Allowance(accepted, rate, capacity, now, i))
    && (level == capacity || exists i :: 0 <= i < |accepted| && level == Allowance(accepted, rate, capacity, now, i))
  }

  lemma RefillKeepsLevel(tokens: real, accepted: seq<real>, rate: real, capacity: real, t: real, now: real)
    requires LevelIs(tokens, accepted, rate, capacity, t) && rate > 0.0 && t <= now
    ensures LevelIs(Min(capacity, tokens + Earned(rate, now - t)), accepted, rate, capacity, now)
  {
    EarnedAdds(rate, now - t, 0.0);
    forall i | 0 <= i < |accepted|
      ensures Allowance(accepted, rate, capacity, now, i)
        == Allowance(accepted, rate, capacity, t, i) + Earned(rate, now - t)
    {
    }
  }

  lemma AcceptKeepsLevel(level: real, accepted: seq<real>, rate: real, capacity: real, now: real)
    requires LevelIs(level, accepted, rate, capacity, now)
    ensures LevelIs(level - 1.0, accepted + [now], rate, capacity, now)
  {
    var more := accepted + [now];
    assert Earned(rate, now - now) == 0.0;
    assert Allowance(more, rate, capacity, now, |accepted|) == capacity - 1.0;
    forall i | 0 <= i < |accepted|
      ensures Allowance(more, rate, capacity, now, i) == Allowance(accepted, rate, capacity, now, i) - 1.0
    {
      assert more[i] == accepted[i] && (|more| - i) as real == (|accepted| - i) as real + 1.0;
    }
    if level != capacity {
      var i :| 0 <= i < |accepted| && level == Allowance(accepted, rate, capacity, now, i);
      assert level - 1.0 == Allowance(more, rate, capacity, now, i);
    }
  }

  /** A token is available exactly when the log has room for one more call. */
  lemma TokenIffFits(level: real, accepted: seq<real>, rate: real, capacity: real, now: real)
    requires LevelIs(level, accepted, rate, capacity, now) && capacity >= 1.0
    ensures level >= 1.0 <==> Fits(accepted, rate, capacity, now)
  {
    forall i | 0 <= i < |accepted|
      ensures Allowance(accepted, rate, capacity, now, i) >= 1.0
        <==> (|accepted| - i + 1) as real <= capacity + Earned(rate, now - accepted[i])
    {
    }
  }

  lemma {:induction false} BucketFollowsLog(b: Bucket, accepted: seq<real>, rate: real, burst: real, times: seq<real>)
    requires rate > 0.0 && b.rate == rate && b.burst == Max(burst, 1.0)
    requires LevelIs(b.tokens, accepted, rate, Max(burst, 1.0), b.updated)
    requires NonDecreasing(times) && (times != [] ==> b.updated <= times[0])
    ensures Decisions(b, rate, burst, times) == LogDecisions(accepted, rate, Max(burst, 1.0), times)
    decreases |times|
  {
    if times != [] {
      var capacity, now := Max(burst, 1.0), times[0];
      var level := Level(b, rate, capacity, now);
      assert level == Min(capacity, b.tokens + Earned(rate, now - b.updated));
      RefillKeepsLevel(b.tokens, accepted, rate, capacity, b.updated, now);
      TokenIffFits(level, accepted, rate, capacity, now);
      var (b', ok) := Consumed(b, rate, burst, 1.0, now);
      if ok {
        AcceptKeepsLevel(level, accepted, rate, capacity, now);
        BucketFollowsLog(b', accepted + [now], rate, burst, times[1..]);
      } else {
        BucketFollowsLog(b', accepted, rate, burst, times[1..]);
      }
    }
  }

  /** A bucket that was last used with another rate or capacity, or not at all, starts over full: whatever it
      held, it decides from then on as a limiter that remembers no accepted call. */
  lemma ReconfiguredStartsOver(b: Bucket, rate: real, burst: real, times: seq<real>)
    requires rate > 0.0 && NonDecreasing(times) && (rate != b.rate || Max(burst, 1.0) != b.burst)
    ensures Decisions(b, rate, burst, times) == LogDecisions([], rate, Max(burst, 1.0), times)
  {
    if times != [] {
      var capacity, now := Max(burst, 1.0), times[0];
      var (next, ok) := Consumed(b, rate, burst, 1.0, now);
      assert LevelIs(capacity, [], rate, capacity, now);
      AcceptKeepsLevel(capacity, [], rate, capacity, now);
      assert [] + [now] == [now];
      BucketFollowsLog(next, [now], rate, burst, times[1..]);
    }
  }

  /** The lazily refilled counter decides exactly as the limiter that remembers every accepted call
      and admits a new one only if every window stays within capacity plus rate times its length. */
  lemma BucketRefinesLog(start: real, rate: real, burst: real, times: seq<real>)
    requires rate > 0.0 && NonDecreasing(times)
    ensures Decisions(Fresh(start), rate, burst, times) == LogDecisions([], rate, Max(burst, 1.0), times)
  {
    ReconfiguredStartsOver(Fresh(start), rate, burst, times);
  }

  // ---- What the limiter guarantees ----

  /** The accepted calls of a run, in order. */
  function AcceptedOf(times: seq<real>, decisions: seq<bool>): seq<real>
    requires |times| == |decisions|
  {
    if times == [] then []
    else (if decisions[0] then [times[0]] else []) + AcceptedOf(times[1..], decisions[1..])
  }

  /** Any stretch of accepted calls is no longer than the capacity plus what its span earns. */
  ghost predicate Bounded(accepted: seq<real>, rate: real, capacity: real) {
    forall i, j :: 0 <= i <= j < |accepted| ==>
      (j - i + 1) as real <= capacity + Earned(rate, accepted[j] - accepted[i])
  }

  lemma BoundedGrows(accepted: seq<real>, rate: real, capacity: real, now: real)
    requires capacity >= 1.0 && Bounded(accepted, rate, capacity) && Fits(accepted, rate, capacity, now)
    ensures Bounded(accepted + [now], rate, capacity)
  {
    var more := accepted + [now];
    assert Earned(rate, now - now) == 0.0;
    hide Earned;
    forall i, j | 0 <= i <= j < |more|
      ensures (j - i + 1) as real <= capacity + Earned(rate, more[j] - more[i])
    {
      if j == |accepted| && i < j {
        assert (|accepted| - i + 1) as real <= capacity + Earned(rate, now - accepted[i]);
      }
    }
  }

  /** What the log limiter accepts from here on. */
  function Kept(accepted: seq<real>, rate: real, capacity: real, times: seq<real>): seq<real> {
    AcceptedOf(times, LogDecisions(accepted, rate, capacity, times))
  }

  lemma KeptStep(accepted: seq<real>, rate: real, capacity: real, times: seq<real>)
    requires times != []
    ensures Kept(accepted, rate, capacity, times) ==
      if Fits(accepted, rate, capacity, times[0]) then
        [times[0]] + Kept(accepted + [times[0]], rate, capacity, times[1..])
      else Kept(accepted, rate, capacity, times[1..])
  {
  }

  lemma KeptNone(accepted: seq<real>, rate: real, capacity: real)
    ensures Kept(accepted, rate, capacity, []) == []
  {
  }

  lemma {:induction false} LogStaysBounded(accepted: seq<real>, rate: real, capacity: real, times: seq<real>)
    requires capacity >= 1.0 && Bounded(accepted, rate, capacity)
    ensures Bounded(accepted + Kept(accepted, rate, capacity, times), rate, capacity)
    decreases |times|
  {
    hide *;
    if times == [] {
      KeptNone(accepted, rate, capacity);
      assert accepted + [] == accepted;
    } else {
      KeptStep(accepted, rate, capacity, times);
      if Fits(accepted, rate, capacity, times[0]) {
        var more, rest := accepted + [times[0]], times[1..];
        BoundedGrows(accepted, rate, capacity, times[0]);
        LogStaysBounded(more, rate, capacity, rest);
        assert accepted + ([times[0]] + Kept(more, rate, capacity, rest)) == more + Kept(more, rate, capacity, rest);
      } else {
        LogStaysBounded(accepted, rate, capacity, times[1..]);
      }
    }
  }

  /** In any run the calls accepted between any two accepted calls (both included) number at most
      max(burst, 1) + rate * (time between them). */
  lemma RateIsBounded(start: real, rate: real, burst: real, times: seq<real>)
    requires rate > 0.0 && NonDecreasing(times)
    ensures Bounded(AcceptedOf(times, Decisions(Fresh(start), rate, burst, times)), rate, Max(burst, 1.0))
  {
    BucketRefinesLog(start, rate, burst, times);
    LogStaysBounded([], rate, Max(burst, 1.0), times);
    assert [] + Kept([], rate, Max(burst, 1.0), times) == Kept([], rate, Max(burst, 1.0), times);
  }

  function Between(accepted: seq<real>, t1: real, t2: real): nat {
    if accepted == [] then 0
    else (if t1 <= accepted[0] <= t2 then 1 else 0) + Between(accepted[1..], t1, t2)
  }

  lemma {:induction false} BetweenIsAStretch(accepted: seq<real>, t1: real, t2: real) returns (i: nat, j: nat)
    requires NonDecreasing(accepted)
    ensures i <= j <= |accepted| && j - i == Between(accepted, t1, t2)
    ensures i < j ==> t1 <= accepted[i] && accepted[j - 1] <= t2
    ensures forall k :: 0 <= k < i ==> accepted[k] < t1
  {
    if accepted == [] || accepted[0] > t2 {
      i, j := 0, 0;
      NoneAfter(accepted, t1, t2);
    } else {
      i, j := BetweenIsAStretch(accepted[1..], t1, t2);
      if accepted[0] < t1 {
        i, j := i + 1, j + 1;
        assert forall k :: 1 <= k < i ==> accepted[k] == accepted[1..][k - 1];
      } else {
        if i > 0 { assert accepted[1..][0] < t1; }
        j := j + 1;
      }
    }
  }

  lemma {:induction false} NoneAfter(accepted: seq<real>, t1: real, t2: real)
    requires NonDecreasing(accepted) && (accepted != [] ==> accepted[0] > t2)
    ensures Between(accepted, t1, t2) == 0
  {
    if accepted != [] {
      assert |accepted| > 1 ==> accepted[1..][0] >= accepted[0];
      NoneAfter(accepted[1..], t1, t2);
    }
  }

  lemma {:induction false} AcceptedAreThere(times: seq<real>, decisions: seq<bool>, a: real)
    requires |times| == |decisions| && a in AcceptedOf(times, decisions)
    ensures a in times
  {
    if times != [] && a != times[0] {
      AcceptedAreThere(times[1..], decisions[1..], a);
    }
  }

  lemma PrependSorted(first: real, rest: seq<real>)
    requires NonDecreasing(rest) && forall a :: a in rest ==> first <= a
    ensures NonDecreasing([first] + rest)
  {
    forall k | 0 <= k < |rest| ensures first <= rest[k] {
      assert rest[k] in rest;
    }
  }

  lemma {:induction false} AcceptedSorted(times: seq<real>, decisions: seq<bool>)
    requires |times| == |decisions| && NonDecreasing(times)
    ensures NonDecreasing(AcceptedOf(times, decisions))
  {
    if times != [] {
      AcceptedSorted(times[1..], decisions[1..]);
      var rest := AcceptedOf(times[1..], decisions[1..]);
      forall a | a in rest ensures times[0] <= a {
        AcceptedAreThere(times[1..], decisions[1..], a);
      }
      PrependSorted(times[0], rest);
      assert [] + rest == rest;
    }
  }

  lemma StretchBound(accepted: seq<real>, rate: real, capacity: real, t1: real, t2: real)
    requires rate > 0.0 && capacity >= 1.0 && NonDecreasing(accepted) && Bounded(accepted, rate, capacity) && t1 <= t2
    ensures Between(accepted, t1, t2) as real <= capacity + Earned(rate, t2 - t1)
  {
    var i, j := BetweenIsAStretch(accepted, t1, t2);
    EarnedAdds(rate, t2 - t1, 0.0);
    if i < j {
      var span := accepted[j - 1] - accepted[i];
      var slack := (t2 - t1) - span;
      EarnedAdds(rate, slack, span);
      hide Earned;
      assert slack + span == t2 - t1;
      assert (j - 1 - i + 1) as real <= capacity + Earned(rate, accepted[j - 1] - accepted[i]);
    }
  }

  /** The calls accepted in any interval number at most max(burst, 1) + rate * its length. */
  lemma IntervalBound(start: real, rate: real, burst: real, times: seq<real>, t1: real, t2: real)
    requires rate > 0.0 && NonDecreasing(times) && t1 <= t2
    ensures var accepted := AcceptedOf(times, Decisions(Fresh(start), rate, burst, times));
      Between(accepted, t1, t2) as real <= Max(burst, 1.0) + Earned(rate, t2 - t1)
  {
    hide Decisions, AcceptedOf, Bounded, Earned, NonDecreasing;
    AcceptedSorted(times, Decisions(Fresh(start), rate, burst, times));
    RateIsBounded(start, rate, burst, times);
    StretchBound(AcceptedOf(times, Decisions(Fresh(start), rate, burst, times)), rate, Max(burst, 1.0), t1, t2);
  }

  predicate AllTrue(ds: seq<bool>) { forall i :: 0 <= i < |ds| ==> ds[i] }

  /** Calls spaced at least 1/rate apart are never refused. */
  lemma SpacedCallsPass(start: real, rate: real, burst: real, times: seq<real>)
    requires rate > 0.0 && NonDecreasing(times)
    requires forall i :: 0 < i < |times| ==> Earned(rate, times[i] - times[i - 1]) >= 1.0
    ensures AllTrue(Decisions(Fresh(start), rate, burst, times))
  {
    BucketRefinesLog(start, rate, burst, times);
    assert times[..0] == [] && times[0..] == times;
    SpacedLog(rate, Max(burst, 1.0), times, 0);
  }

  lemma {:induction false} SpacedEarn(rate: real, times: seq<real>, i: nat, j: nat)
    requires i <= j < |times|
    requires forall k :: 0 < k < |times| ==> Earned(rate, times[k] - times[k - 1]) >= 1.0
    ensures Earned(rate, times[j] - times[i]) >= (j - i) as real
    decreases j - i
  {
    if i < j {
      SpacedEarn(rate, times, i, j - 1);
      EarnedAdds(rate, times[j] - times[j - 1], times[j - 1] - times[i]);
      assert (times[j] - times[j - 1]) + (times[j - 1] - times[i]) == times[j] - times[i];
    }
  }

  lemma {:induction false} SpacedLog(rate: real, capacity: real, times: seq<real>, n: nat)
    requires capacity >= 1.0 && n <= |times|
    requires forall k :: 0 < k < |times| ==> Earned(rate, times[k] - times[k - 1]) >= 1.0
    ensures AllTrue(LogDecisions(times[..n], rate, capacity, times[n..]))
    decreases |times| - n
  {
    if n < |times| {
      forall i | 0 <= i < n ensures (n - i + 1) as real <= capacity + Earned(rate, times[n] - times[..n][i]) {
        SpacedEarn(rate, times, i, n);
      }
      assert Fits(times[..n], rate, capacity, times[n..][0]);
      assert times[..n] + [times[n..][0]] == times[..n + 1] && times[n..][1..] == times[n + 1..];
      SpacedLog(rate, capacity, times, n + 1);
    }
  }

  /** Refused calls leave no trace: with all of them deleted, every other call is decided as before. */
  lemma RefusedCallsLeaveNoTrace(start: real, rate: real, burst: real, times: seq<real>)
    requires rate > 0.0 && NonDecreasing(times)
    ensures var accepted := AcceptedOf(times, Decisions(Fresh(start), rate, burst, times));
      AllTrue(Decisions(Fresh(start), rate, burst, accepted))
  {
    var decisions := Decisions(Fresh(start), rate, burst, times);
    BucketRefinesLog(start, rate, burst, times);
    AcceptedSorted(times, decisions);
    BucketRefinesLog(start, rate, burst, AcceptedOf(times, decisions));
    LogForgetsRefused([], rate, Max(burst, 1.0), times);
  }

  lemma {:induction false} LogForgetsRefused(accepted: seq<real>, rate: real, capacity: real, times: seq<real>)
    ensures AllTrue(LogDecisions(accepted, rate, capacity, Kept(accepted, rate, capacity, times)))
    decreases |times|
  {
    if times != [] {
      hide Kept, Fits;
      KeptStep(accepted, rate, capacity, times);
      var now, rest := times[0], times[1..];
      if Fits(accepted, rate, capacity, now) {
        var kept := Kept(accepted + [now], rate, capacity, rest);
        LogForgetsRefused(accepted + [now], rate, capacity, rest);
        assert ([now] + kept)[1..] == kept;
      } else {
        LogForgetsRefused(accepted, rate, capacity, rest);
      }
    }
  }

  /** Once configured, the fill level never leaves [0, capacity]. */
  lemma TokensStayInRange(b: Bucket, rate: real, burst: real, cost: real, now: real)
    requires b.rate > 0.0 ==> 0.0 <= b.tokens <= b.burst
    requires cost >= 0.0 && b.updated <= now
    ensures var b' := Consumed(b, rate, burst, cost, now).0; b'.rate > 0.0 ==> 0.0 <= b'.tokens <= b'.burst
  {
    EarnedAdds(rate, now - b.updated, 0.0);
  }

  /** One request to a bucket, with the configuration in force at that moment. */
  datatype Draw = Draw(rate: real, burst: real, cost: real, now: real)

  /** The bucket after a run of requests, whose configuration may change from one to the next. */
  function BucketAfter(b: Bucket, draws: seq<Draw>): Bucket
    decreases |draws|
  {
    if draws == [] then b
    else var d := draws[0]; BucketAfter(Consumed(b, d.rate, d.burst, d.cost, d.now).0, draws[1..])
  }

  /** Over any run with a non-decreasing clock, whatever the configuration does, the fill level stays
      within [0, capacity] and the bucket's clock never runs ahead of the caller's. */
  lemma {:induction false} TokensInRangeForEver(b: Bucket, draws: seq<Draw>)
    requires b.rate > 0.0 ==> 0.0 <= b.tokens <= b.burst
    requires forall i :: 0 <= i < |draws| ==> draws[i].cost >= 0.0 && b.updated <= draws[i].now
    requires forall i, j :: 0 <= i <= j < |draws| ==> draws[i].now <= draws[j].now
    ensures var end := BucketAfter(b, draws); end.rate > 0.0 ==> 0.0 <= end.tokens <= end.burst
    ensures draws != [] ==> BucketAfter(b, draws).updated <= draws[|draws| - 1].now
    decreases |draws|
  {
    if draws != [] {
      var d, rest := draws[0], draws[1..];
      var next := Consumed(b, d.rate, d.burst, d.cost, d.now).0;
      TokensStayInRange(b, d.rate, d.burst, d.cost, d.now);
      assert next.updated <= d.now;
      assert forall i :: 0 <= i < |rest| ==> rest[i] == draws[i + 1];
      hide Consumed;
      TokensInRangeForEver(next, rest);
    }
  }

  function Limits(d: Draw): bool { d.rate > 0.0 }

  /** Requests made while the limit is switched off always pass and leave no trace in the bucket. */
  lemma {:induction false} SwitchedOffLeavesNoTrace(b: Bucket, draws: seq<Draw>)
    ensures BucketAfter(b, Filter(draws, Limits)) == BucketAfter(b, draws)
    ensures forall c, d :: d in draws && d.rate <= 0.0 ==> Consumed(c, d.rate, d.burst, d.cost, d.now).1
    decreases |draws|
  {
    if draws != [] {
      var d := draws[0];
      var next := Consumed(b, d.rate, d.burst, d.cost, d.now).0;
      SwitchedOffLeavesNoTrace(next, draws[1..]);
      FilterCons(d, draws[1..], Limits);
      assert [d] + draws[1..] == draws;
      var kept := Filter(draws[1..], Limits);
      assert ([d] + kept)[1..] == kept;
      assert [] + kept == kept;
      assert BucketAfter(b, draws) == BucketAfter(next, draws[1..]);
      assert Limits(d) ==> BucketAfter(b, [d] + kept) == BucketAfter(next, kept);
    }
  }

  // ---- The store of buckets ----

  type Store = map<BucketKey, Bucket>

  /** One request against the bucket of its key, created on first use. */
  function Allowed(store: Store, c: Call): (Store, bool) {
    if c.rate <= 0.0 then (store, true)
    else
      var b := if c.key in store then store[c.key] else Fresh(c.now);
      var (b', ok) := Consumed(b, c.rate, c.burst, 1.0, c.now);
      (store[c.key := b'], ok)
  }

  class Limiter {
    var buckets: map<BucketKey, TokenBucket>

    /** Different keys have different bucket objects. */
    ghost predicate Valid()
      reads this
    {
      forall k, l :: k in buckets && l in buckets && buckets[k] == buckets[l] ==> k == l
    }

    ghost function View(): Store
      reads this, buckets.Values
    {
      map k | k in buckets :: buckets[k].View()
    }

    constructor ()
      ensures Valid() && View() == map[]
    {
      buckets := map[];
    }

    /** The bucket of a key, created on first use. */
    method BucketFor(key: BucketKey, now: real) returns (b: TokenBucket)
      requires Valid()
      modifies this
      ensures Valid() && key in buckets && buckets[key] == b
      ensures key in old(buckets) ==> buckets == old(buckets)
      ensures key !in old(buckets) ==> fresh(b) && buckets == old(buckets)[key := b]
      ensures View() == old(View())[key := b.View()]
      ensures b.View() == if key in old(View()) then old(View())[key] else Fresh(now)
    {
      if key !in buckets {
        b := new TokenBucket(now);
        buckets := buckets[key := b];
      } else {
        b := buckets[key];
      }
    }

    /** One token from the bucket of a key that has one; no other bucket changes. */
    method Draw(b: TokenBucket, c: Call) returns (ok: bool)
      requires Valid() && c.key in buckets && buckets[c.key] == b
      modifies b
      ensures Valid() && c.key in old(View())
      ensures (b.View(), ok) == Consumed(old(View())[c.key], c.rate, c.burst, 1.0, c.now)
      ensures View() == old(View())[c.key := b.View()]
    {
      hide Consumed;
      ok := b.Consume(c.rate, c.burst, 1.0, c.now);
    }

    method AllowRequest(c: Call) returns (ok: bool)
      requires Valid()
      modifies this, buckets.Values
      ensures Valid() && (View(), ok) == Allowed(old(View()), c)
      ensures fresh(buckets.Values - old(buckets.Values))
    {
      hide Consumed;
      if c.rate <= 0.0 {
        return true;
      }
      ghost var store := View();
      var b := BucketFor(c.key, c.now);
      ghost var first := b.View();
      ok := Draw(b, c);
      assert store[c.key := first][c.key := b.View()] == store[c.key := b.View()];
    }
  }

  function RunStore(store: Store, calls: seq<Call>): (r: seq<bool>)
    ensures |r| == |calls|
    decreases |calls|
  {
    if calls == [] then []
    else var (store', ok) := Allowed(store, calls[0]); [ok] + RunStore(store', calls[1..])
  }

  /** One key on its own: its bucket, if it has one yet, and its calls. */
  function RunAlone(slot: Option<Bucket>, calls: seq<Call>): (r: seq<bool>)
    ensures |r| == |calls|
    decreases |calls|
  {
    if calls == [] then []
    else
      var c := calls[0];
      if c.rate <= 0.0 then [true] + RunAlone(slot, calls[1..])
      else
        var (b', ok) := Consumed(if slot.Some? then slot.value else Fresh(c.now), c.rate, c.burst, 1.0, c.now);
        [ok] + RunAlone(Some(b'), calls[1..])
  }

  function Slot(store: Store, k: BucketKey): Option<Bucket> { if k in store then Some(store[k]) else None }

  function CallsOf(k: BucketKey, calls: seq<Call>): seq<Call> {
    if calls == [] then [] else (if calls[0].key == k then [calls[0]] else []) + CallsOf(k, calls[1..])
  }

  function DecisionsOf(k: BucketKey, calls: seq<Call>, ds: seq<bool>): seq<bool>
    requires |calls| == |ds|
  {
    if calls == [] then [] else (if calls[0].key == k then [ds[0]] else []) + DecisionsOf(k, calls[1..], ds[1..])
  }

  /** Whatever other keys do in between, the decisions for one key are those of its own calls alone. */
  lemma {:induction false} KeysAreIndependent(store: Store, calls: seq<Call>, k: BucketKey)
    ensures DecisionsOf(k, calls, RunStore(store, calls)) == RunAlone(Slot(store, k), CallsOf(k, calls))
    decreases |calls|
  {
    if calls != [] {
      var c, rest := calls[0], calls[1..];
      var (store', ok) := Allowed(store, c);
      KeysAreIndependent(store', rest, k);
      assert RunStore(store, calls)[1..] == RunStore(store', rest);
      if c.key == k {
        assert CallsOf(k, calls)[1..] == CallsOf(k, rest);
      } else {
        assert CallsOf(k, calls) == CallsOf(k, rest);
        assert DecisionsOf(k, calls, RunStore(store, calls)) == DecisionsOf(k, rest, RunStore(store', rest));
      }
    }
  }

  /** Two interleavings that agree on one key's calls give that key the same answers. */
  lemma InterleavingIrrelevant(store: Store, calls: seq<Call>, other: seq<Call>, k: BucketKey)
    requires CallsOf(k, calls) == CallsOf(k, other)
    ensures DecisionsOf(k, calls, RunStore(store, calls)) == DecisionsOf(k, other, RunStore(store, other))
  {
    KeysAreIndependent(store, calls, k);
    KeysAreIndependent(store, other, k);
  }

  // ---- The guarantees for one key inside the store ----

  function NowOf(c: Call): real { c.now }

  predicate Configured(calls: seq<Call>, rate: real, burst: real) {
    forall i :: 0 <= i < |calls| ==> calls[i].rate == rate && calls[i].burst == burst
  }

  lemma {:induction false} AloneIsBucket(b: Bucket, calls: seq<Call>, rate: real, burst: real)
    requires rate > 0.0 && Configured(calls, rate, burst)
    ensures RunAlone(Some(b), calls) == Decisions(b, rate, burst, Map(calls, NowOf))
    decreases |calls|
  {
    if calls != [] {
      assert Map(calls, NowOf)[1..] == Map(calls[1..], NowOf);
      AloneIsBucket(Consumed(b, rate, burst, 1.0, calls[0].now).0, calls[1..], rate, burst);
    }
  }

  /** A key without a bucket yet is decided like a fresh bucket, whenever that was made. */
  lemma AloneIsFresh(calls: seq<Call>, rate: real, burst: real, start: real)
    requires rate > 0.0 && Configured(calls, rate, burst)
    ensures RunAlone(None, calls) == Decisions(Fresh(start), rate, burst, Map(calls, NowOf))
  {
    if calls != [] {
      var c := calls[0];
      assert Map(calls, NowOf)[1..] == Map(calls[1..], NowOf);
      assert Consumed(Fresh(c.now), rate, burst, 1.0, c.now) == Consumed(Fresh(start), rate, burst, 1.0, c.now);
      AloneIsBucket(Consumed(Fresh(start), rate, burst, 1.0, c.now).0, calls[1..], rate, burst);
    }
  }

  /** In any interleaving with other keys, a key is decided as one bucket would decide its own calls. */
  lemma KeyIsBucket(store: Store, calls: seq<Call>, k: BucketKey, rate: real, burst: real)
    requires rate > 0.0 && k !in store && Configured(CallsOf(k, calls), rate, burst)
    ensures DecisionsOf(k, calls, RunStore(store, calls))
      == Decisions(Fresh(0.0), rate, burst, Map(CallsOf(k, calls), NowOf))
  {
    hide DecisionsOf, Decisions, RunStore, RunAlone, CallsOf, Configured;
    KeysAreIndependent(store, calls, k);
    AloneIsFresh(CallsOf(k, calls), rate, burst, 0.0);
  }

  /** Whatever other keys do, the calls of one key accepted in any interval number at most
      max(burst, 1) + rate * its length. */
  lemma KeyIntervalBound(store: Store, calls: seq<Call>, k: BucketKey, rate: real, burst: real, t1: real, t2: real)
    requires rate > 0.0 && k !in store && Configured(CallsOf(k, calls), rate, burst)
    requires NonDecreasing(Map(CallsOf(k, calls), NowOf)) && t1 <= t2
    ensures |DecisionsOf(k, calls, RunStore(store, calls))| == |CallsOf(k, calls)|
    ensures var accepted := AcceptedOf(Map(CallsOf(k, calls), NowOf), DecisionsOf(k, calls, RunStore(store, calls)));
      Between(accepted, t1, t2) as real <= Max(burst, 1.0) + Earned(rate, t2 - t1)
  {
    hide *;
    KeyIsBucket(store, calls, k, rate, burst);
    IntervalBound(0.0, rate, burst, Map(CallsOf(k, calls), NowOf), t1, t2);
  }

  /** Whatever other keys do, a caller whose own calls are spaced at least 1/rate apart is never refused. */
  lemma KeySpacedCallsPass(store: Store, calls: seq<Call>, k: BucketKey, rate: real, burst: real)
    requires rate > 0.0 && k !in store && Configured(CallsOf(k, calls), rate, burst)
    requires var own := Map(CallsOf(k, calls), NowOf);
      NonDecreasing(own) && forall i :: 0 < i < |own| ==> Earned(rate, own[i] - own[i - 1]) >= 1.0
    ensures AllTrue(DecisionsOf(k, calls, RunStore(store, calls)))
  {
    hide *;
    KeyIsBucket(store, calls, k, rate, burst);
    SpacedCallsPass(0.0, rate, burst, Map(CallsOf(k, calls), NowOf));
  }
}
