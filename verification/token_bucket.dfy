// The token bucket behind per-tag rate limits (orchestrate/resource.go), over the
// reals; clock readings and wait times are whole nanoseconds.
module TokenBuckets {
  import opened Types

  const NANOS := 1000000000.0
  const MILLISECOND := 1_000_000

  datatype Bucket = Bucket(rate: real, capacity: real, tokens: real, lastTime: int)

  // newTokenBucket: the burst size is the rate, and the bucket starts full.
  function Fresh(rate: real, now: int): Bucket {
    Bucket(rate, rate, rate, now)
  }

  function Gain(rate: real, nanos: int): real {
    (nanos as real / NANOS) * rate
  }

  function Refill(b: Bucket, now: int): Bucket {
    var tokens := b.tokens + Gain(b.rate, now - b.lastTime);
    b.(tokens := if tokens > b.capacity then b.capacity else tokens, lastTime := now)
  }

  predicate Granted(b: Bucket, now: int) {
    Refill(b, now).tokens >= 1.0
  }

  // One iteration of wait's loop.
  function Try(b: Bucket, now: int): Bucket {
    var r := Refill(b, now);
    if r.tokens >= 1.0 then r.(tokens := r.tokens - 1.0) else r
  }

  // The time until one token is there, in nanoseconds.
  function ExactPause(b: Bucket): real
    requires b.rate != 0.0
  {
    (1.0 - b.tokens) / b.rate * NANOS
  }

  // The pause before the next iteration: the exact one truncated to nanoseconds, but at
  // least a millisecond. Where truncating and flooring differ the minimum applies.
  function WaitTime(b: Bucket): int
    requires b.rate != 0.0
  {
    var nanos := ExactPause(b).Floor;
    if nanos > MILLISECOND then nanos else MILLISECOND
  }

  // ----- every run -----

  function After(b: Bucket, times: seq<int>): Bucket {
    if times == [] then b else Try(After(b, times[..|times| - 1]), times[|times| - 1])
  }

  function Grants(b: Bucket, times: seq<int>): nat {
    if times == [] then 0
    else
      var n := |times| - 1;
      Grants(b, times[..n]) + if Granted(After(b, times[..n]), times[n]) then 1 else 0
  }

  ghost predicate Level(b: Bucket) {
    b.rate >= 0.0 && 0.0 <= b.tokens <= b.capacity
  }

  // Clock readings never go back.
  ghost predicate Clock(from: int, times: seq<int>) {
    (forall i, j :: 0 <= i < j < |times| ==> times[i] <= times[j]) && forall i :: 0 <= i < |times| ==> from <= times[i]
  }

  lemma GainPositive(rate: real, nanos: int)
    requires rate >= 0.0 && nanos >= 0
    ensures Gain(rate, nanos) >= 0.0
  {
    assert nanos as real / NANOS >= 0.0;
  }

  lemma GainAdds(rate: real, a: int, b: int)
    ensures Gain(rate, a) + Gain(rate, b) == Gain(rate, a + b)
  {
    assert (a + b) as real / NANOS == a as real / NANOS + b as real / NANOS;
  }

  lemma GainMonotone(rate: real, a: int, b: int)
    requires rate >= 0.0 && a <= b
    ensures Gain(rate, a) <= Gain(rate, b)
  {
    GainAdds(rate, a, b - a);
    GainPositive(rate, b - a);
  }

  // The level stays between empty and full.
  lemma TryLevel(b: Bucket, now: int)
    requires Level(b) && b.lastTime <= now
    ensures Level(Try(b, now)) && Try(b, now).lastTime == now
    ensures Try(b, now).rate == b.rate && Try(b, now).capacity == b.capacity
  {
    GainPositive(b.rate, now - b.lastTime);
    hide Gain;
  }

  lemma {:induction false} AfterLevel(b: Bucket, times: seq<int>)
    requires Level(b) && Clock(b.lastTime, times)
    ensures var a := After(b, times);
            Level(a) && a.rate == b.rate && a.capacity == b.capacity
            && a.lastTime == if times == [] then b.lastTime else times[|times| - 1]
  {
    if times != [] {
      var n := |times| - 1;
      AfterLevel(b, times[..n]);
      TryLevel(After(b, times[..n]), times[n]);
    }
  }

  // Tokens granted since the first attempt, plus what is left, never exceed one full
  // bucket and what has flowed in since.
  lemma {:induction false} Budget(b: Bucket, times: seq<int>)
    requires Level(b) && Clock(b.lastTime, times) && times != []
    ensures Grants(b, times) as real + After(b, times).tokens
            <= b.capacity + Gain(b.rate, times[|times| - 1] - times[0])
  {
    var n := |times| - 1;
    var before := After(b, times[..n]);
    AfterLevel(b, times[..n]);
    if n == 0 {
      assert Grants(b, times[..n]) == 0 && before == b;
      assert Gain(b.rate, 0) == 0.0;
    } else {
      Budget(b, times[..n]);
      assert times[..n][n - 1] == times[n - 1];
      GainAdds(b.rate, times[n - 1] - times[0], times[n] - times[n - 1]);
    }
    hide Gain;
  }

  // Over every run and every stretch of it: at most capacity + rate * T grants in time T.
  lemma IntervalBound(b: Bucket, times: seq<int>, i: nat, j: nat)
    requires Level(b) && Clock(b.lastTime, times) && i < j <= |times|
    ensures Grants(After(b, times[..i]), times[i..j]) as real <= b.capacity + Gain(b.rate, times[j - 1] - times[i])
  {
    hide Gain, Grants;
    AfterLevel(b, times[..i]);
    var s := After(b, times[..i]);
    if i > 0 {
      assert times[..i][i - 1] == times[i - 1];
    }
    Budget(s, times[i..j]);
    AfterLevel(s, times[i..j]);
  }

  // ----- exactly what is granted -----

  // No refill of the run would overflow the bucket.
  ghost predicate NeverFull(b: Bucket, times: seq<int>) {
    forall i :: 0 <= i < |times| ==> Fits(b, times, i)
  }

  // Until attempt i no more flows in than the bucket has room for.
  ghost predicate Fits(b: Bucket, times: seq<int>, i: nat)
    requires i < |times|
  {
    var a := After(b, times[..i]); a.tokens + Gain(b.rate, times[i] - a.lastTime) <= b.capacity
  }

  // Where nothing overflows, what was there and what flowed in is what was granted, one
  // token each, and what is left.
  lemma {:induction false} Conservation(b: Bucket, times: seq<int>)
    requires Level(b) && Clock(b.lastTime, times) && NeverFull(b, times) && times != []
    ensures After(b, times).tokens + Grants(b, times) as real ==
            b.tokens + Gain(b.rate, times[|times| - 1] - b.lastTime)
  {
    hide *;
    var n := |times| - 1;
    var a := After(b, times[..n]);
    LastAttempt(b, times);
    PrefixNeverFull(b, times, n);
    ClockPrefix(b.lastTime, times, n);
    AfterLevel(b, times[..n]);
    TryConserves(a, times[n]);
    if n == 0 {
      NoAttempts(b);
      assert times[..0] == [];
    } else {
      Conservation(b, times[..n]);
      GainAdds(b.rate, times[n - 1] - b.lastTime, times[n] - times[n - 1]);
    }
  }

  lemma NoAttempts(b: Bucket)
    ensures After(b, []) == b && Grants(b, []) == 0
  {
  }

  lemma LastAttempt(b: Bucket, times: seq<int>)
    requires times != []
    ensures var n := |times| - 1;
      && After(b, times) == Try(After(b, times[..n]), times[n])
      && Grants(b, times) == Grants(b, times[..n]) + if Granted(After(b, times[..n]), times[n]) then 1 else 0
  {
  }

  lemma FitsPrefix(b: Bucket, times: seq<int>, n: nat, i: nat)
    requires i < n <= |times| && Fits(b, times, i)
    ensures Fits(b, times[..n], i)
  {
    hide After, Gain;
    assert times[..n][..i] == times[..i];
  }

  lemma PrefixNeverFull(b: Bucket, times: seq<int>, n: nat)
    requires n < |times| && NeverFull(b, times)
    ensures NeverFull(b, times[..n])
    ensures var a := After(b, times[..n]); a.tokens + Gain(b.rate, times[n] - a.lastTime) <= b.capacity
  {
    assert Fits(b, times, n);
    hide Fits, After, Gain;
    forall i | 0 <= i < n
      ensures Fits(b, times[..n], i)
    {
      FitsPrefix(b, times, n, i);
    }
  }

  lemma ClockPrefix(from: int, times: seq<int>, n: nat)
    requires n <= |times| && Clock(from, times)
    ensures Clock(from, times[..n])
    ensures 1 <= n < |times| ==> times[n - 1] <= times[n]
  {
  }

  lemma TryConserves(b: Bucket, now: int)
    requires b.tokens + Gain(b.rate, now - b.lastTime) <= b.capacity
    ensures Try(b, now).tokens + (if Granted(b, now) then 1.0 else 0.0) == b.tokens + Gain(b.rate, now - b.lastTime)
  {
  }

  function AtOnce(now: int, k: nat): seq<int> {
    seq(k, _ => now)
  }

  // Of k attempts at the same moment as many are granted as there are whole tokens, and no
  // token beyond those is gone.
  lemma {:induction false} Burst(b: Bucket, now: int, k: nat)
    requires Level(b) && b.lastTime <= now && k > 0
    ensures var level, after := Refill(b, now).tokens, After(b, AtOnce(now, k));
      && Grants(b, AtOnce(now, k)) == (if k < level.Floor then k else level.Floor)
      && after.tokens == level - Grants(b, AtOnce(now, k)) as real
      && after.lastTime == now && after.capacity == b.capacity && after.rate == b.rate
  {
    var times := AtOnce(now, k);
    assert times[..k - 1] == AtOnce(now, k - 1);
    GainPositive(b.rate, now - b.lastTime);
    if k == 1 {
      assert After(b, []) == b && Grants(b, []) == 0;
    } else {
      Burst(b, now, k - 1);
      assert Gain(b.rate, 0) == 0.0;
    }
    hide Gain;
  }

  // A fresh bucket grants as many attempts at once as its rate has whole tokens.
  lemma FreshBurst(rate: real, now: int, k: nat)
    requires rate >= 0.0 && k > 0
    ensures Grants(Fresh(rate, now), AtOnce(now, k)) == if k < rate.Floor then k else rate.Floor
  {
    Burst(Fresh(rate, now), now, k);
    assert Gain(rate, 0) == 0.0;
  }

  // The next k whole tokens are granted to k attempts at once, and the rest stays.
  lemma WholeTokens(b: Bucket, k: nat)
    requires Level(b) && 0 < k && k as real <= b.tokens
    ensures Grants(b, AtOnce(b.lastTime, k)) == k && After(b, AtOnce(b.lastTime, k)).tokens == b.tokens - k as real
  {
    hide *;
    Burst(b, b.lastTime, k);
    RefillNow(b);
    assert b.tokens.Floor >= k;
  }

  lemma RefillNow(b: Bucket)
    requires Level(b)
    ensures Refill(b, b.lastTime) == b
  {
    assert Gain(b.rate, 0) == 0.0;
  }

  // ----- waiting -----

  // A bucket whose rate is below one token per second never grants anything; any other grants at once.
  lemma {:induction false} SlowNeverGrants(b: Bucket, times: seq<int>)
    requires b.capacity < 1.0
    ensures Grants(b, times) == 0 && After(b, times).capacity == b.capacity
  {
    if times != [] {
      SlowNeverGrants(b, times[..|times| - 1]);
    }
  }

  lemma GrantsIffRate(rate: real, now: int)
    ensures (exists times :: Grants(Fresh(rate, now), times) > 0) <==> rate >= 1.0
  {
    if rate >= 1.0 {
      assert [now][..0] == [];
      assert Gain(rate, 0) == 0.0;
      assert Granted(Fresh(rate, now), now);
      assert Grants(Fresh(rate, now), [now]) > 0;
    } else {
      forall times
        ensures Grants(Fresh(rate, now), times) == 0
      {
        SlowNeverGrants(Fresh(rate, now), times);
      }
    }
  }

  // After the computed pause, without competitors, the token is there up to one
  // nanosecond's worth: truncating the pause can cost a second iteration ...
  lemma PauseAlmostSuffices(b: Bucket, now: int)
    requires Level(b) && b.rate > 0.0 && b.capacity >= 1.0 && b.tokens < 1.0 && now - b.lastTime >= WaitTime(b)
    ensures Refill(b, now).tokens >= 1.0 - Gain(b.rate, 1)
  {
    assert WaitTime(b) as real >= ExactPause(b) - 1.0;
    GainMonotone(b.rate, WaitTime(b), now - b.lastTime);
    PauseGain(b.rate, 1.0 - b.tokens, WaitTime(b));
    assert Gain(b.rate, 1) >= 0.0 by { GainPositive(b.rate, 1); }
    hide Gain;
  }

  lemma PauseGain(rate: real, deficit: real, nanos: int)
    requires rate > 0.0 && nanos as real >= deficit / rate * NANOS - 1.0
    ensures Gain(rate, nanos) >= deficit - Gain(rate, 1)
  {
    var lower := deficit / rate * NANOS - 1.0;
    assert nanos as real / NANOS >= lower / NANOS;
    assert lower / NANOS == deficit / rate - 1.0 / NANOS;
    assert (nanos as real / NANOS) * rate >= (deficit / rate - 1.0 / NANOS) * rate;
    assert (deficit / rate - 1.0 / NANOS) * rate == (deficit / rate) * rate - (1.0 / NANOS) * rate;
    assert (deficit / rate) * rate == deficit;
  }

  // ... and that one is enough, since the minimum pause outweighs the truncation.
  lemma SecondPauseSuffices(b: Bucket, first: int, second: int)
    requires Level(b) && b.rate > 0.0 && b.capacity >= 1.0 && b.tokens < 1.0
    requires first - b.lastTime >= WaitTime(b)
    requires !Granted(b, first)
    requires second - first >= WaitTime(Try(b, first))
    ensures Granted(Try(b, first), second)
  {
    PauseAlmostSuffices(b, first);
    var s := Try(b, first);
    assert WaitTime(s) >= MILLISECOND >= 1;
    GainMonotone(b.rate, 1, second - first);
    hide Gain;
  }

  // An attempt is granted exactly if it comes no earlier than the exact pause.
  lemma GrantedIffPaused(b: Bucket, now: int)
    requires Level(b) && b.rate > 0.0 && b.capacity >= 1.0 && b.tokens < 1.0
    ensures Granted(b, now) <==> ExactPause(b) <= (now - b.lastTime) as real
  {
    var deficit, nanos := 1.0 - b.tokens, (now - b.lastTime) as real;
    assert Granted(b, now) <==> (nanos / NANOS) * b.rate >= deficit;
    ScaleBoth(nanos / NANOS, deficit / b.rate, b.rate);
    assert (deficit / b.rate) * b.rate == deficit;
    ScaleBoth(nanos / NANOS, deficit / b.rate, NANOS);
    assert nanos / NANOS * NANOS == nanos;
  }

  lemma ScaleBoth(x: real, y: real, r: real)
    requires r > 0.0
    ensures x >= y <==> x * r >= y * r
  {
    assert x * r - y * r == (x - y) * r;
  }

  // The computed pause suffices exactly when nothing is cut off: the exact pause is a
  // whole number of nanoseconds, or the millisecond minimum covers it.
  lemma PauseSufficesIff(b: Bucket)
    requires Level(b) && b.rate > 0.0 && b.capacity >= 1.0 && b.tokens < 1.0
    ensures Granted(b, b.lastTime + WaitTime(b)) <==>
      ExactPause(b) == ExactPause(b).Floor as real || ExactPause(b) <= 1_000_000.0
  {
    GrantedIffPaused(b, b.lastTime + WaitTime(b));
  }

  // An empty bucket with three tokens per second: after the computed pause of
  // 333333333 nanoseconds there is no token yet.
  lemma TruncatedPauseFails()
    ensures var b := Bucket(3.0, 3.0, 0.0, 0);
      Level(b) && WaitTime(b) == 333_333_333 && !Granted(b, b.lastTime + WaitTime(b))
  {
    var b := Bucket(3.0, 3.0, 0.0, 0);
    assert 333333333.0 <= ExactPause(b) < 333333334.0;
    GrantedIffPaused(b, b.lastTime + WaitTime(b));
  }

  class TokenBucket {
    const rate: real
    const capacity: real
    var tokens: real
    var lastTime: int

    function Now(): Bucket
      reads this
    {
      Bucket(rate, capacity, tokens, lastTime)
    }

    constructor (ratePerSecond: real, now: int)
      ensures Now() == Fresh(ratePerSecond, now)
    {
      rate, capacity, tokens, lastTime := ratePerSecond, ratePerSecond, ratePerSecond, now;
    }

    method DoRefill(now: int)
      modifies this
      ensures Now() == Refill(old(Now()), now)
    {
      var elapsed := (now - lastTime) as real / NANOS;
      tokens := tokens + elapsed * rate;
      if tokens > capacity {
        tokens := capacity;
      }
      lastTime := now;
    }

    // The critical section of wait: take a token, or say how long to pause. Without any
    // rate the division gives infinity, and which duration that becomes is up to the machine.
    method TryTake(now: int) returns (pause: Option<int>)
      modifies this
      ensures Now() == Try(old(Now()), now)
      ensures pause.None? ==> tokens == Refill(old(Now()), now).tokens - 1.0
      ensures pause.Some? ==> tokens == Refill(old(Now()), now).tokens < 1.0
      ensures pause.None? <==> Granted(old(Now()), now)
      ensures pause.Some? ==> pause.value >= 1_000_000 && (rate != 0.0 ==> pause.value == WaitTime(Now()))
    {
      DoRefill(now);
      if tokens >= 1.0 {
        tokens := tokens - 1.0;
        return None;
      }
      var deficit := 1.0 - tokens;
      var waitDur: int := *;
      if rate != 0.0 {
        waitDur := (deficit / rate * NANOS).Floor;
      }
      return Some(if waitDur > MILLISECOND then waitDur else MILLISECOND);
    }
  }
}
