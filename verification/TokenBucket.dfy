/**
 The token bucket of the gatekeeper and of the swarm sender, over real arithmetic.
 `Bucket` says what a call computes; the class edits its fields; the lemmas are about whole runs.
 */
module TokenBucket {
  function Max(x: real, y: real): real { if x < y then y else x }

  function Min(x: real, y: real): real { if y < x then y else x }

  /** Tokens gained in a span of time. */
  function Gain(rate: real, span: real): real { rate * span }

  lemma GainAdds(rate: real, x: real, y: real)
    ensures Gain(rate, x + y) == Gain(rate, x) + Gain(rate, y)
  {
  }

  lemma GainPositive(rate: real, x: real)
    requires rate >= 0.0 && x >= 0.0
    ensures Gain(rate, x) >= 0.0 && Gain(rate, 0.0) == 0.0
  {
  }

  /** How many calls a window of a given length has room for. */
  function WindowLimit(rate: real, span: real): real {
    (if rate < 1.0 then 1.0 else rate) + rate * span
  }

  lemma LimitIs(rate: real, span: real)
    ensures WindowLimit(rate, span) == Max(rate, 1.0) + Gain(rate, span)
  {
  }

  datatype Bucket = Bucket(capacity: real, tokens: real, lastRefill: real, rate: real) {
    ghost predicate Valid() { 0.0 <= tokens <= capacity && capacity == Max(rate, 1.0) && rate >= 0.0 }

    /** Time since the last refill; a clock that reads earlier counts as no time. */
    function Elapsed(now: real): real { Max(now - lastRefill, 0.0) }

    function Refilled(now: real): real { Min(tokens + Gain(rate, Elapsed(now)), capacity) }

    predicate Allows(now: real) { Refilled(now) >= 1.0 }

    function After(now: real): Bucket {
      Bucket(capacity, Refilled(now) - (if Allows(now) then 1.0 else 0.0), now, rate)
    }
  }

  function Fresh(rate: real, now: real): Bucket {
    Bucket(Max(rate, 1.0), Max(rate, 1.0), now, rate)
  }

  class TokenBucket {
    var capacity: real
    var tokens: real
    var lastRefill: real
    var refillPerSec: real

    function State(): Bucket
      reads this
    {
      Bucket(capacity, tokens, lastRefill, refillPerSec)
    }

    constructor (rate: real, now: real)
      ensures State() == Fresh(rate, now)
    {
      capacity := if rate < 1.0 then 1.0 else rate;
      tokens := if rate < 1.0 then 1.0 else rate;
      lastRefill := now;
      refillPerSec := rate;
    }

    method Allow(now: real) returns (ok: bool)
      modifies this
      ensures ok == old(State()).Allows(now)
      ensures State() == old(State()).After(now)
    {
      var elapsed := if now < lastRefill then 0.0 else now - lastRefill;
      var refilled := tokens + refillPerSec * elapsed;
      tokens := if capacity < refilled then capacity else refilled;
      lastRefill := now;
      if tokens >= 1.0 {
        tokens := tokens - 1.0;
        ok := true;
      } else {
        ok := false;
      }
    }
  }

  // ---------------------------------------------------------------- runs

  ghost predicate Nondecreasing(start: real, times: seq<real>) {
    && (forall i :: 0 <= i < |times| ==> start <= times[i])
    && (forall i, j :: 0 <= i <= j < |times| ==> times[i] <= times[j])
  }

  function RunBucket(b: Bucket, times: seq<real>): Bucket
    decreases |times|
  {
    if times == [] then b else RunBucket(b.After(times[0]), times[1..])
  }

  /** How many of the calls at `times` are allowed. */
  function Allowed(b: Bucket, times: seq<real>): nat
    decreases |times|
  {
    if times == [] then 0
    else (if b.Allows(times[0]) then 1 else 0) + Allowed(b.After(times[0]), times[1..])
  }

  lemma StepKeepsValid(b: Bucket, now: real)
    requires b.Valid()
    ensures b.After(now).Valid()
  {
    hide Gain;
    GainPositive(b.rate, b.Elapsed(now));
  }

  /** Tokens stay between zero and the capacity over every run, for every clock. */
  lemma {:induction false} RunKeepsValid(b: Bucket, times: seq<real>)
    requires b.Valid()
    ensures RunBucket(b, times).Valid() && RunBucket(b, times).rate == b.rate
    ensures RunBucket(b, times).capacity == b.capacity
    ensures times != [] ==> RunBucket(b, times).lastRefill == times[|times| - 1]
    decreases |times|
  {
    hide Gain;
    if times != [] {
      StepKeepsValid(b, times[0]);
      RunKeepsValid(b.After(times[0]), times[1..]);
    }
  }

  /** Nothing is created: allowed calls are paid from the tokens at hand and from the refill. */
  lemma {:induction false} AllowedIsPaidFor(b: Bucket, times: seq<real>)
    requires b.Valid() && Nondecreasing(b.lastRefill, times)
    ensures times != [] ==>
              Allowed(b, times) as real <= b.tokens + Gain(b.rate, times[|times| - 1] - b.lastRefill)
    decreases |times|
  {
    hide Gain;
    if times != [] {
      var b' := b.After(times[0]);
      StepKeepsValid(b, times[0]);
      AllowedIsPaidFor(b', times[1..]);
      if |times| > 1 {
        var last := times[|times| - 1];
        GainAdds(b.rate, last - times[0], times[0] - b.lastRefill);
      }
    }
  }

  /**
   The rate bound: in any window of a run, after any earlier calls, at most
   `max(rate, 1) + rate * (t - s)` calls are allowed between the first at `s` and the last at `t`.
   */
  lemma RateBound(b: Bucket, before: seq<real>, window: seq<real>)
    requires b.Valid() && Nondecreasing(b.lastRefill, before + window) && window != []
    ensures Allowed(RunBucket(b, before), window) as real
         <= WindowLimit(b.rate, window[|window| - 1] - window[0])
  {
    hide Gain, WindowLimit;
    LimitIs(b.rate, window[|window| - 1] - window[0]);
    var m := RunBucket(b, before);
    RunKeepsValid(b, before);
    var all := before + window;
    assert forall i :: 0 <= i < |window| ==> all[|before| + i] == window[i];
    if before != [] { assert all[|before| - 1] == before[|before| - 1]; }
    assert Nondecreasing(m.lastRefill, window);
    WindowBound(m, window);
  }

  lemma WindowBound(m: Bucket, window: seq<real>)
    requires m.Valid() && Nondecreasing(m.lastRefill, window) && window != []
    ensures Allowed(m, window) as real <= m.capacity + Gain(m.rate, window[|window| - 1] - window[0])
  {
    hide Gain;
    var m' := m.After(window[0]);
    var rest := window[1..];
    StepKeepsValid(m, window[0]);
    AllowedIsPaidFor(m', rest);
    GainPositive(m.rate, 0.0);
    if rest != [] { assert rest[|rest| - 1] == window[|window| - 1]; }
  }

  /** Splitting a wait in two at a denied call gives the bucket of the unsplit wait. */
  lemma DeniedSplit(b: Bucket, s: real, t: real)
    requires b.Valid() && b.lastRefill <= s <= t && !b.Allows(s)
    ensures b.After(s).Refilled(t) == b.Refilled(t)
    ensures b.After(s).After(t) == b.After(t) && b.After(s).Allows(t) == b.Allows(t)
  {
    hide Gain;
    GainAdds(b.rate, s - b.lastRefill, t - s);
    GainPositive(b.rate, t - s);
  }

  /** The times of the allowed calls of a run, in order. */
  function AllowedTimes(b: Bucket, times: seq<real>): seq<real>
    decreases |times|
  {
    if times == [] then []
    else (if b.Allows(times[0]) then [times[0]] else []) + AllowedTimes(b.After(times[0]), times[1..])
  }

  lemma {:induction false} DeniedFirst(b: Bucket, s: real, times: seq<real>)
    requires b.Valid() && b.lastRefill <= s && Nondecreasing(s, times) && !b.Allows(s)
    ensures AllowedTimes(b.After(s), times) == AllowedTimes(b, times)
    decreases |times|
  {
    hide Gain;
    if times != [] { DeniedSplit(b, s, times[0]); }
  }

  lemma {:induction false} AllowedTimesAre(b: Bucket, start: real, times: seq<real>)
    requires Nondecreasing(start, times)
    ensures var kept := AllowedTimes(b, times);
            && Nondecreasing(start, kept) && |kept| == Allowed(b, times)
            && forall t :: t in kept ==> t in times
    decreases |times|
  {
    hide Bucket.Allows, Bucket.After;
    if times != [] {
      assert times == [times[0]] + times[1..] && Nondecreasing(times[0], times[1..]);
      AllowedTimesAre(b.After(times[0]), times[0], times[1..]);
    }
  }

  /** Denied calls cost nothing: without them, the remaining calls are all allowed, as before. */
  lemma {:induction false} DeniedCallsAreFree(b: Bucket, times: seq<real>)
    requires b.Valid() && Nondecreasing(b.lastRefill, times)
    ensures AllowedTimes(b, AllowedTimes(b, times)) == AllowedTimes(b, times)
    ensures Allowed(b, AllowedTimes(b, times)) == Allowed(b, times)
    decreases |times|
  {
    hide Bucket.Allows, Bucket.Refilled, Bucket.Valid;
    if times != [] {
      var t := times[0];
      var rest := times[1..];
      StepKeepsValid(b, t);
      assert Nondecreasing(t, rest);
      AllowedTimesAre(b.After(t), t, rest);
      DeniedCallsAreFree(b.After(t), rest);
      var kept := AllowedTimes(b.After(t), rest);
      if b.Allows(t) {
        assert ([t] + kept)[1..] == kept;
      } else {
        DeniedFirst(b, t, kept);
        assert AllowedTimes(b, times) == [] + kept == kept;
      }
    }
    AllowedTimesAre(b, b.lastRefill, times);
    AllowedTimesAre(b, b.lastRefill, AllowedTimes(b, times));
  }

  // ---------------------------------------------------------------- the bucket is the largest such limiter

  /** Allowed calls among the calls numbered `i` up to `n`. */
  function AllowedBetween(b: Bucket, times: seq<real>, i: nat, n: nat): nat
    requires i <= n <= |times|
  {
    Allowed(RunBucket(b, times[..i]), times[i..n])
  }

  lemma {:induction false} RunConcat(b: Bucket, x: seq<real>, y: seq<real>)
    ensures RunBucket(b, x + y) == RunBucket(RunBucket(b, x), y)
    ensures Allowed(b, x + y) == Allowed(b, x) + Allowed(RunBucket(b, x), y)
    decreases |x|
  {
    if x == [] {
      assert x + y == y;
    } else {
      assert (x + y)[1..] == x[1..] + y;
      RunConcat(b.After(x[0]), x[1..], y);
    }
  }

  /** The room left at `now` in the window that opened with call `i`. */
  function Room(b: Bucket, times: seq<real>, i: nat, now: real): real
    requires i < |times|
  {
    b.capacity + Gain(b.rate, now - times[i]) - AllowedBetween(b, times, i, |times|) as real
  }

  lemma RoomGrows(b: Bucket, times: seq<real>, t: real, i: nat, now: real)
    requires i < |times|
    ensures Room(b, times + [t], i, now)
         == Room(b, times, i, t) + Gain(b.rate, now - t)
            - (if RunBucket(b, times).Allows(t) then 1.0 else 0.0)
  {
    hide Gain, AllowedBetween, RunBucket;
    GainAdds(b.rate, t - times[i], now - t);
    OneMoreCall(b, times, t, i);
  }

  lemma OneMoreCall(b: Bucket, times: seq<real>, t: real, i: nat)
    requires i <= |times|
    ensures AllowedBetween(b, times + [t], i, |times| + 1)
         == AllowedBetween(b, times, i, |times|) + (if RunBucket(b, times).Allows(t) then 1 else 0)
  {
    var n := |times|;
    assert (times + [t])[..i] == times[..i] && (times + [t])[i..n + 1] == times[i..n] + [t];
    assert times[..i] + times[i..n] == times;
    RunConcat(b, times[..i], times[i..n]);
    RunConcat(RunBucket(b, times[..i]), times[i..n], [t]);
  }

  /** The level at `now` is the least of the capacity and the rooms of all windows opened before. */
  ghost predicate TightAt(b: Bucket, times: seq<real>, now: real) {
    var level := RunBucket(b, times).Refilled(now);
    && level <= b.capacity
    && (forall i :: 0 <= i < |times| ==> level <= Room(b, times, i, now))
    && (level == b.capacity || exists i :: 0 <= i < |times| && level == Room(b, times, i, now))
  }

  lemma TightStep(b: Bucket, front: seq<real>, t: real, now: real)
    requires b.rate >= 0.0 && t <= now && TightAt(b, front, t)
    requires var p := RunBucket(b, front); p.rate == b.rate && p.capacity == b.capacity
    ensures TightAt(b, front + [t], now)
  {
    hide Gain, Room, RunBucket, Bucket.Refilled;
    var times := front + [t];
    var n := |front|;
    var p := RunBucket(b, front);
    var used := if p.Allows(t) then 1.0 else 0.0;
    var before, after := Rooms(b, front, t), Rooms(b, times, now);
    GainPositive(b.rate, now - t);
    forall i | 0 <= i < n
      ensures after[i] == before[i] + Gain(b.rate, now - t) - used
    {
      RoomGrows(b, front, t, i, now);
    }
    LastRoom(b, front, t, now);
    if p.Refilled(t) != b.capacity {
      var i :| 0 <= i < n && p.Refilled(t) == Room(b, front, i, t);
      assert p.Refilled(t) == before[i];
    }
    OneMoreRun(b, front, t);
    LevelAfter(b, p, t, now);
    var level := RunBucket(b, times).Refilled(now);
    Tightest(b.capacity, p.Refilled(t), used, Gain(b.rate, now - t), before, after, level);
    forall i | 0 <= i < |times| ensures level <= Room(b, times, i, now) { assert level <= after[i]; }
    if level != b.capacity {
      var i :| 0 <= i < |after| && level == after[i];
      assert level == Room(b, times, i, now);
    }
  }

  lemma OneMoreRun(b: Bucket, front: seq<real>, t: real)
    ensures RunBucket(b, front + [t]) == RunBucket(b, front).After(t)
  {
    hide Bucket.After;
    RunConcat(b, front, [t]);
    assert RunBucket(RunBucket(b, front), [t]) == RunBucket(RunBucket(b, front).After(t), []);
  }

  /**
   The refilled level is the tightest of the window bounds: the room left in each window that
   opened at an earlier call, and the capacity itself for a window opening now.
   */
  lemma {:induction false} LevelIsTightestRoom(rate: real, t0: real, times: seq<real>, now: real)
    requires rate >= 0.0 && Nondecreasing(t0, times + [now])
    ensures var b := Fresh(rate, t0);
            var level := RunBucket(b, times).Refilled(now);
            && level <= b.capacity
            && (forall i :: 0 <= i < |times| ==> level <= Room(b, times, i, now))
            && (level == b.capacity || exists i :: 0 <= i < |times| && level == Room(b, times, i, now))
    decreases |times|
  {
    hide Gain, Room, Bucket.Refilled, Bucket.After;
    var b := Fresh(rate, t0);
    assert TightAt(b, times, now) by {
      if times == [] {
        FullAtStart(b, now);
      } else {
        var n := |times| - 1;
        var front, t := times[..n], times[n];
        assert times == front + [t] && times + [now] == front + [t] + [now];
        OrderSplit(t0, front, t, now);
        LevelIsTightestRoom(rate, t0, front, t);
        RunKeepsValid(b, front);
        TightStep(b, front, t, now);
      }
    }
  }

  lemma FullAtStart(b: Bucket, now: real)
    requires b.rate >= 0.0 && b.tokens == b.capacity
    ensures TightAt(b, [], now)
  {
    hide Gain;
    GainPositive(b.rate, b.Elapsed(now));
  }

  /** The rooms left at `now` in all windows that earlier calls opened. */
  function Rooms(b: Bucket, times: seq<real>, now: real): (r: seq<real>)
    ensures |r| == |times| && forall i :: 0 <= i < |r| ==> r[i] == Room(b, times, i, now)
  {
    seq(|times|, i requires 0 <= i < |times| => Room(b, times, i, now))
  }

  lemma LevelAfter(b: Bucket, p: Bucket, t: real, now: real)
    requires t <= now && p.rate == b.rate && p.capacity == b.capacity
    ensures p.After(t).Refilled(now)
         == Min(p.Refilled(t) - (if p.Allows(t) then 1.0 else 0.0) + Gain(b.rate, now - t), b.capacity)
  {
    hide Gain;
  }

  lemma OrderSplit(t0: real, front: seq<real>, t: real, now: real)
    requires Nondecreasing(t0, front + [t] + [now])
    ensures Nondecreasing(t0, front + [t]) && Nondecreasing(t0, front) && t <= now
    ensures (if front == [] then t0 else front[|front| - 1]) <= t
  {
    var all := front + [t] + [now];
    assert all[|front|] == t && all[|front| + 1] == now;
    assert forall i :: 0 <= i <= |front| ==> all[i] == (front + [t])[i];
    assert forall i :: 0 <= i < |front| ==> all[i] == front[i];
  }

  /** One more call moves every room by what was gained and used, and the level with the least of them. */
  lemma Tightest(cap: real, level: real, used: real, gain: real, before: seq<real>, after: seq<real>, level': real)
    requires level <= cap && used >= 0.0 && gain >= 0.0 && |after| == |before| + 1
    requires forall i :: 0 <= i < |before| ==> level <= before[i] && after[i] == before[i] + gain - used
    requires after[|before|] == cap + gain - used && level' == Min(level - used + gain, cap)
    requires level == cap || exists i :: 0 <= i < |before| && level == before[i]
    ensures level' <= cap && forall i :: 0 <= i < |after| ==> level' <= after[i]
    ensures level' == cap || exists i :: 0 <= i < |after| && level' == after[i]
  {
    if level' != cap {
      if level == cap {
        assert level' == after[|before|];
      } else {
        var i :| 0 <= i < |before| && level == before[i];
        assert level' == after[i];
      }
    }
  }

  lemma LastRoom(b: Bucket, front: seq<real>, t: real, now: real)
    ensures Room(b, front + [t], |front|, now)
         == b.capacity + Gain(b.rate, now - t) - (if RunBucket(b, front).Allows(t) then 1.0 else 0.0)
  {
    hide Gain;
    var times := front + [t];
    assert times[..|front|] == front && times[|front|..|times|] == [t];
    assert Allowed(RunBucket(b, front), [t]) == if RunBucket(b, front).Allows(t) then 1 else 0;
  }

  /**
   A call is allowed exactly when allowing it breaks no window bound: the bucket is not merely a
   limiter for this rate, it refuses nothing that the bound would permit.
   */
  lemma AllowsIffRoom(rate: real, t0: real, times: seq<real>, now: real)
    requires rate >= 0.0 && Nondecreasing(t0, times + [now])
    ensures var b := Fresh(rate, t0);
            RunBucket(b, times).Allows(now) <==>
              forall i :: 0 <= i < |times| ==>
                AllowedBetween(b, times, i, |times|) as real + 1.0 <= WindowLimit(rate, now - times[i])
  {
    hide Gain, WindowLimit, Bucket.Refilled, RunBucket, AllowedBetween;
    LevelIsTightestRoom(rate, t0, times, now);
    var b := Fresh(rate, t0);
    forall i | 0 <= i < |times|
      ensures Room(b, times, i, now) >= 1.0 <==>
              AllowedBetween(b, times, i, |times|) as real + 1.0 <= WindowLimit(rate, now - times[i])
    {
      LimitIs(rate, now - times[i]);
    }
  }
}
