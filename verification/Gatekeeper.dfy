/** The gatekeeper: capability checks in order, then one token bucket per worker. */
module Gatekeeper {
  import opened Prelude
  import opened Atoms
  import opened TokenBucket

  datatype Capabilities = Capabilities(
    readWorlds: seq<WorldKey>,
    writeWorlds: seq<WorldKey>,
    labelsWrite: seq<string>,
    kindsWrite: seq<AtomKind>,
    importanceCap: Option<real>,
    rememberPerSec: Option<real>,
    askPerMin: Option<real>)

  datatype Denial = WorldDenied | KindDenied | LabelDenied | ImportanceDenied | RateLimited

  /** The fields of a submitted atom that the gatekeeper looks at. */
  datatype Submission = Submission(
    world: WorldKey, worker: string, kind: AtomKind, labels: seq<string>, importance: real)

  type Buckets = map<string, Bucket>

  /** A list that is empty permits everything; the checks run in this order. */
  function Objection(caps: Capabilities, s: Submission): Option<Denial> {
    if caps.writeWorlds != [] && s.world !in caps.writeWorlds then Some(WorldDenied)
    else if caps.kindsWrite != [] && s.kind !in caps.kindsWrite then Some(KindDenied)
    else if caps.labelsWrite != [] && !AllIn(s.labels, caps.labelsWrite) then Some(LabelDenied)
    else if caps.importanceCap.Some? && s.importance > caps.importanceCap.value then Some(ImportanceDenied)
    else None
  }

  function BucketFor(buckets: Buckets, key: string, rate: real, now: real): Bucket {
    if key in buckets then buckets[key] else Fresh(rate, now)
  }

  /** The rate limiter: its verdict and the buckets it leaves. */
  function Limit(buckets: Buckets, key: string, rate: Option<real>, now: real): (bool, Buckets) {
    match rate
    case None => (true, buckets)
    case Some(r) =>
      var b := BucketFor(buckets, key, r, now);
      (b.Allows(now), buckets[key := b.After(now)])
  }

  function Remember(caps: Capabilities, buckets: Buckets, s: Submission, now: real): (Option<Denial>, Buckets) {
    match Objection(caps, s)
    case Some(d) => (Some(d), buckets)
    case None =>
      var (ok, buckets') := Limit(buckets, s.worker, caps.rememberPerSec, now);
      (if ok then None else Some(RateLimited), buckets')
  }

  const ASK_KEY: string := "ask-global"

  predicate Readable(caps: Capabilities, world: WorldKey) {
    caps.readWorlds == [] || world in caps.readWorlds
  }

  /** Asks are limited by the minute. */
  function AskRate(caps: Capabilities): Option<real> {
    match caps.askPerMin
    case None => None
    case Some(r) => Some(r / 60.0)
  }

  function Ask(caps: Capabilities, buckets: Buckets, world: WorldKey, now: real): (Option<Denial>, Buckets) {
    if !Readable(caps, world) then (Some(WorldDenied), buckets)
    else
      var (ok, buckets') := Limit(buckets, ASK_KEY, AskRate(caps), now);
      (if ok then None else Some(RateLimited), buckets')
  }

  class Gatekeeper {
    const caps: Capabilities
    var rememberBuckets: Buckets
    var askBuckets: Buckets

    constructor (caps: Capabilities)
      ensures this.caps == caps && rememberBuckets == map[] && askBuckets == map[]
    {
      this.caps := caps;
      rememberBuckets, askBuckets := map[], map[];
    }

    method CheckRemember(s: Submission, now: real) returns (denial: Option<Denial>)
      modifies this`rememberBuckets
      ensures (denial, rememberBuckets) == Remember(caps, old(rememberBuckets), s, now)
    {
      if caps.writeWorlds != [] && s.world !in caps.writeWorlds { return Some(WorldDenied); }
      if caps.kindsWrite != [] && s.kind !in caps.kindsWrite { return Some(KindDenied); }
      if caps.labelsWrite != [] && !AllIn(s.labels, caps.labelsWrite) { return Some(LabelDenied); }
      if caps.importanceCap.Some? && s.importance > caps.importanceCap.value { return Some(ImportanceDenied); }
      var ok, buckets := RateLimit(rememberBuckets, s.worker, caps.rememberPerSec, now);
      rememberBuckets := buckets;
      denial := if ok then None else Some(RateLimited);
    }

    method CheckAsk(world: WorldKey, now: real) returns (denial: Option<Denial>)
      modifies this`askBuckets
      ensures (denial, askBuckets) == Ask(caps, old(askBuckets), world, now)
    {
      if caps.readWorlds != [] && world !in caps.readWorlds { return Some(WorldDenied); }
      var rate := if caps.askPerMin.None? then None else Some(caps.askPerMin.value / 60.0);
      var ok, buckets := RateLimit(askBuckets, ASK_KEY, rate, now);
      askBuckets := buckets;
      denial := if ok then None else Some(RateLimited);
    }

    static method RateLimit(buckets: Buckets, key: string, rate: Option<real>, now: real)
      returns (ok: bool, buckets': Buckets)
      ensures (ok, buckets') == Limit(buckets, key, rate, now)
    {
      if rate.None? { return true, buckets; }
      buckets' := buckets;
      if key !in buckets' { buckets' := buckets'[key := Fresh(rate.value, now)]; }
      var bucket := buckets'[key];
      ok := bucket.Allows(now);
      buckets' := buckets'[key := bucket.After(now)];
      assert buckets' == buckets[key := bucket.After(now)];
    }
  }

  /**
   The verdict on a submission, check by check: its world, kind, labels and importance, in this order,
   and then its worker's bucket, which a submission that fails a check does not touch.
   */
  lemma RememberVerdict(caps: Capabilities, buckets: Buckets, s: Submission, now: real)
    ensures var (denial, buckets') := Remember(caps, buckets, s, now);
            if caps.writeWorlds != [] && s.world !in caps.writeWorlds
              then denial == Some(WorldDenied) && buckets' == buckets
            else if caps.kindsWrite != [] && s.kind !in caps.kindsWrite
              then denial == Some(KindDenied) && buckets' == buckets
            else if caps.labelsWrite != [] && exists l :: l in s.labels && l !in caps.labelsWrite
              then denial == Some(LabelDenied) && buckets' == buckets
            else if caps.importanceCap.Some? && s.importance > caps.importanceCap.value
              then denial == Some(ImportanceDenied) && buckets' == buckets
            else if caps.rememberPerSec.None? then denial == None && buckets' == buckets
            else
              var b := if s.worker in buckets then buckets[s.worker] else Fresh(caps.rememberPerSec.value, now);
              && denial == (if b.Allows(now) then None else Some(RateLimited))
              && buckets' == buckets[s.worker := b.After(now)]
  {
    hide Bucket.Allows, Bucket.After, Fresh, AllIn;
    AllInMeaning(s.labels, caps.labelsWrite);
  }

  /** The verdict on an ask: its world, and then the one bucket there is for asks. */
  lemma AskVerdict(caps: Capabilities, buckets: Buckets, world: WorldKey, now: real)
    ensures var (denial, buckets') := Ask(caps, buckets, world, now);
            if caps.readWorlds != [] && world !in caps.readWorlds
              then denial == Some(WorldDenied) && buckets' == buckets
            else if caps.askPerMin.None? then denial == None && buckets' == buckets
            else
              var b := if ASK_KEY in buckets then buckets[ASK_KEY] else Fresh(caps.askPerMin.value / 60.0, now);
              && denial == (if b.Allows(now) then None else Some(RateLimited))
              && buckets' == buckets[ASK_KEY := b.After(now)]
  {
    hide Bucket.Allows, Bucket.After, Fresh;
  }

  // ---------------------------------------------------------------- runs

  type Call = (Submission, real)

  function RunBuckets(caps: Capabilities, buckets: Buckets, calls: seq<Call>): Buckets
    decreases |calls|
  {
    if calls == [] then buckets
    else RunBuckets(caps, Remember(caps, buckets, calls[0].0, calls[0].1).1, calls[1..])
  }

  /** How many submissions of `worker` a run accepts. */
  function Accepted(caps: Capabilities, buckets: Buckets, calls: seq<Call>, worker: string): nat
    decreases |calls|
  {
    if calls == [] then 0
    else
      var (denial, buckets') := Remember(caps, buckets, calls[0].0, calls[0].1);
      (if denial == None && calls[0].0.worker == worker then 1 else 0) + Accepted(caps, buckets', calls[1..], worker)
  }

  /** The times at which `worker` makes a submission that no capability check stops. */
  function TimesOf(caps: Capabilities, calls: seq<Call>, worker: string): (r: seq<real>)
    ensures forall t :: t in r ==> exists i :: 0 <= i < |calls| && calls[i].1 == t
  {
    if calls == [] then []
    else
      assert forall i :: 0 <= i < |calls| - 1 ==> calls[1..][i] == calls[i + 1];
      (if calls[0].0.worker == worker && Objection(caps, calls[0].0) == None then [calls[0].1] else [])
      + TimesOf(caps, calls[1..], worker)
  }

  ghost predicate InOrder<T>(start: real, calls: seq<(T, real)>) {
    && (forall i :: 0 <= i < |calls| ==> start <= calls[i].1)
    && (forall i, j :: 0 <= i <= j < |calls| ==> calls[i].1 <= calls[j].1)
  }

  lemma {:induction false} TimesInOrder(caps: Capabilities, start: real, calls: seq<Call>, worker: string)
    requires InOrder(start, calls)
    ensures Nondecreasing(start, TimesOf(caps, calls, worker))
    decreases |calls|
  {
    if calls != [] {
      assert InOrder(calls[0].1, calls[1..]);
      TimesInOrder(caps, calls[0].1, calls[1..], worker);
    }
  }

  ghost predicate ValidBuckets(caps: Capabilities, buckets: Buckets, now: real) {
    forall k :: k in buckets ==>
      buckets[k].Valid() && buckets[k].lastRefill <= now && Some(buckets[k].rate) == caps.rememberPerSec
  }

  lemma RememberKeepsValid(caps: Capabilities, buckets: Buckets, s: Submission, last: real, now: real)
    requires ValidBuckets(caps, buckets, last) && last <= now
    requires caps.rememberPerSec.Some? ==> caps.rememberPerSec.value >= 0.0
    ensures ValidBuckets(caps, Remember(caps, buckets, s, now).1, now)
  {
    if Objection(caps, s) == None && caps.rememberPerSec.Some? {
      StepKeepsValid(BucketFor(buckets, s.worker, caps.rememberPerSec.value, now), now);
    }
  }

  /** Workers do not share buckets: what one is granted depends on its own permitted calls alone. */
  lemma {:induction false} WorkersAreIndependent(
    caps: Capabilities, buckets: Buckets, calls: seq<Call>, worker: string)
    requires caps.rememberPerSec.Some?
    ensures var times := TimesOf(caps, calls, worker);
            && (times != [] ==>
                  Accepted(caps, buckets, calls, worker)
                  == Allowed(BucketFor(buckets, worker, caps.rememberPerSec.value, times[0]), times))
            && (times == [] ==> Accepted(caps, buckets, calls, worker) == 0)
    decreases |calls|
  {
    if calls != [] {
      var (s, now) := calls[0];
      var (denial, buckets') := Remember(caps, buckets, s, now);
      WorkersAreIndependent(caps, buckets', calls[1..], worker);
      var rest := TimesOf(caps, calls[1..], worker);
      if s.worker == worker && Objection(caps, s) == None {
        assert ([now] + rest)[1..] == rest;
      } else {
        assert [] + rest == rest;
      }
    }
  }

  lemma {:induction false} RunKeepsBuckets(caps: Capabilities, buckets: Buckets, calls: seq<Call>, start: real)
    requires ValidBuckets(caps, buckets, start) && InOrder(start, calls)
    requires caps.rememberPerSec.Some? ==> caps.rememberPerSec.value >= 0.0
    ensures ValidBuckets(caps, RunBuckets(caps, buckets, calls), if calls == [] then start else calls[|calls| - 1].1)
    decreases |calls|
  {
    if calls != [] {
      RememberKeepsValid(caps, buckets, calls[0].0, start, calls[0].1);
      assert InOrder(calls[0].1, calls[1..]);
      RunKeepsBuckets(caps, Remember(caps, buckets, calls[0].0, calls[0].1).1, calls[1..], calls[0].1);
    }
  }

  lemma SplitOrder(before: seq<Call>, window: seq<Call>)
    requires window != [] && InOrder((before + window)[0].1, before + window)
    ensures before != [] ==> InOrder(before[0].1, before) && before[|before| - 1].1 <= window[0].1
    ensures InOrder(window[0].1, window)
  {
    var all := before + window;
    assert forall i :: 0 <= i < |before| ==> all[i] == before[i];
    assert forall i :: 0 <= i < |window| ==> all[|before| + i] == window[i];
  }

  /** The bucket a window finds for a worker is sound and not ahead of the window. */
  lemma BucketAtWindow(caps: Capabilities, before: seq<Call>, window: seq<Call>, worker: string, t: real)
    requires caps.rememberPerSec.Some? && caps.rememberPerSec.value >= 0.0
    requires window != [] && InOrder((before + window)[0].1, before + window) && window[0].1 <= t
    ensures var b := BucketFor(RunBuckets(caps, map[], before), worker, caps.rememberPerSec.value, t);
            b.Valid() && b.rate == caps.rememberPerSec.value && b.lastRefill <= t
  {
    SplitOrder(before, window);
    if before != [] { RunKeepsBuckets(caps, map[], before, before[0].1); }
  }

  /**
   The limit on a worker: in any window of any run over all workers, at most
   `max(rate, 1) + rate * (t - s)` of its submissions are accepted.
   */
  lemma WorkerRateBound(caps: Capabilities, before: seq<Call>, window: seq<Call>, worker: string)
    requires caps.rememberPerSec.Some? && caps.rememberPerSec.value >= 0.0
    requires window != [] && InOrder((before + window)[0].1, before + window)
    ensures Accepted(caps, RunBuckets(caps, map[], before), window, worker) as real
         <= WindowLimit(caps.rememberPerSec.value, window[|window| - 1].1 - window[0].1)
  {
    hide Gain, WindowLimit, Max, InOrder, Allowed, Accepted, TimesOf, RunBuckets;
    var rate := caps.rememberPerSec.value;
    var mid := RunBuckets(caps, map[], before);
    SplitOrder(before, window);
    WorkersAreIndependent(caps, mid, window, worker);
    var times := TimesOf(caps, window, worker);
    TimesInOrder(caps, window[0].1, window, worker);
    InOrderSpan(window);
    var span := window[|window| - 1].1 - window[0].1;
    LimitIs(rate, span);
    GainPositive(rate, span);
    if times != [] {
      WindowFits(caps, window, worker);
      BucketAtWindow(caps, before, window, worker, times[0]);
      var b := BucketFor(mid, worker, rate, times[0]);
      var used := times[|times| - 1] - times[0];
      WindowBound(b, times);
      GainAdds(rate, used, span - used);
      GainPositive(rate, span - used);
    } else {
      MaxPositive(rate);
    }
  }

  lemma InOrderSpan(window: seq<Call>)
    requires window != [] && InOrder(window[0].1, window)
    ensures window[|window| - 1].1 >= window[0].1
  {
  }

  lemma WindowFits(caps: Capabilities, window: seq<Call>, worker: string)
    requires window != [] && InOrder(window[0].1, window) && TimesOf(caps, window, worker) != []
    ensures var times := TimesOf(caps, window, worker);
            window[0].1 <= times[0] <= times[|times| - 1] <= window[|window| - 1].1
  {
    var times := TimesOf(caps, window, worker);
    TimesInOrder(caps, window[0].1, window, worker);
    assert times[|times| - 1] in times;
  }

  lemma MaxPositive(rate: real)
    ensures Max(rate, 1.0) >= 1.0
  {
  }

  // ---------------------------------------------------------------- asks

  /** The world asked about, and when. */
  type AskCall = (WorldKey, real)

  function AskBuckets(caps: Capabilities, buckets: Buckets, asks: seq<AskCall>): Buckets
    decreases |asks|
  {
    if asks == [] then buckets
    else AskBuckets(caps, Ask(caps, buckets, asks[0].0, asks[0].1).1, asks[1..])
  }

  /** How many asks of a run are granted, whoever makes them and whatever world they are about. */
  function Granted(caps: Capabilities, buckets: Buckets, asks: seq<AskCall>): nat
    decreases |asks|
  {
    if asks == [] then 0
    else
      var (denial, buckets') := Ask(caps, buckets, asks[0].0, asks[0].1);
      (if denial == None then 1 else 0) + Granted(caps, buckets', asks[1..])
  }

  /** The times of the asks about readable worlds. */
  function AskTimes(caps: Capabilities, asks: seq<AskCall>): seq<real> {
    if asks == [] then []
    else (if Readable(caps, asks[0].0) then [asks[0].1] else []) + AskTimes(caps, asks[1..])
  }

  /** All asks share one bucket, which sees the times of the readable ones. */
  lemma {:induction false} AsksShareOneBucket(caps: Capabilities, buckets: Buckets, asks: seq<AskCall>)
    requires caps.askPerMin.Some?
    ensures var times := AskTimes(caps, asks);
            && (times == [] ==> AskBuckets(caps, buckets, asks) == buckets && Granted(caps, buckets, asks) == 0)
            && (times != [] ==>
                  var b := BucketFor(buckets, ASK_KEY, AskRate(caps).value, times[0]);
                  && AskBuckets(caps, buckets, asks) == buckets[ASK_KEY := RunBucket(b, times)]
                  && Granted(caps, buckets, asks) == Allowed(b, times))
    decreases |asks|
  {
    hide Bucket.Allows, Bucket.After, Fresh;
    if asks != [] {
      var (world, now) := asks[0];
      var buckets' := Ask(caps, buckets, world, now).1;
      AsksShareOneBucket(caps, buckets', asks[1..]);
      var rest := AskTimes(caps, asks[1..]);
      if Readable(caps, world) {
        assert ([now] + rest)[1..] == rest;
      } else {
        assert [] + rest == rest;
      }
    }
  }

  lemma {:induction false} AskTimesConcat(caps: Capabilities, x: seq<AskCall>, y: seq<AskCall>)
    ensures AskTimes(caps, x + y) == AskTimes(caps, x) + AskTimes(caps, y)
  {
    if x == [] {
      assert x + y == y;
    } else {
      assert (x + y)[0] == x[0] && (x + y)[1..] == x[1..] + y;
      AskTimesConcat(caps, x[1..], y);
    }
  }

  lemma {:induction false} AskTimesInOrder(caps: Capabilities, start: real, asks: seq<AskCall>)
    requires InOrder(start, asks)
    ensures Nondecreasing(start, AskTimes(caps, asks))
    decreases |asks|
  {
    if asks != [] {
      assert InOrder(asks[0].1, asks[1..]);
      AskTimesInOrder(caps, asks[0].1, asks[1..]);
    }
  }

  /** The readable ask that the `k`-th time belongs to. */
  lemma {:induction false} AskAt(caps: Capabilities, asks: seq<AskCall>, k: nat) returns (i: nat)
    requires k < |AskTimes(caps, asks)|
    ensures i < |asks| && Readable(caps, asks[i].0) && |AskTimes(caps, asks[..i])| == k
  {
    var here := if Readable(caps, asks[0].0) then 1 else 0;
    if k < here {
      i := 0;
    } else {
      var j := AskAt(caps, asks[1..], k - here);
      i := j + 1;
      assert asks[..i][0] == asks[0] && asks[..i][1..] == asks[1..][..j];
    }
  }

  /** The window that opens with the `i`-th ask has no room at `now`. */
  ghost predicate Full(caps: Capabilities, asks: seq<AskCall>, i: nat, now: real)
    requires caps.askPerMin.Some? && i < |asks|
  {
    Granted(caps, AskBuckets(caps, map[], asks[..i]), asks[i..]) as real + 1.0
    > WindowLimit(caps.askPerMin.value / 60.0, now - asks[i].1)
  }

  lemma FullIsNoRoom(caps: Capabilities, asks: seq<AskCall>, i: nat, now: real)
    requires caps.askPerMin.Some? && i < |asks| && Readable(caps, asks[i].0)
    ensures var times, k, rate := AskTimes(caps, asks), |AskTimes(caps, asks[..i])|, AskRate(caps).value;
            && k < |times| && times[k] == asks[i].1
            && (Full(caps, asks, i, now) <==>
                  AllowedBetween(Fresh(rate, times[0]), times, k, |times|) as real + 1.0
                  > WindowLimit(rate, now - times[k]))
  {
    hide Gain, WindowLimit, Max, Fresh, RunBucket, Allowed, Granted, AskBuckets;
    var before, rest := asks[..i], asks[i..];
    assert asks == before + rest && rest[0] == asks[i];
    AskTimesConcat(caps, before, rest);
    AsksShareOneBucket(caps, AskBuckets(caps, map[], before), rest);
    var x, y := AskTimes(caps, before), AskTimes(caps, rest);
    assert (x + y)[..|x|] == x && (x + y)[|x|..|x + y|] == y;
    var rate := AskRate(caps).value;
    AskBucketIs(caps, before, x, y);
  }

  /** The bucket that asks at times `y` find after those of `before`, at times `x`. */
  lemma AskBucketIs(caps: Capabilities, before: seq<AskCall>, x: seq<real>, y: seq<real>)
    requires caps.askPerMin.Some? && x == AskTimes(caps, before) && y != []
    ensures var rate := AskRate(caps).value;
            BucketFor(AskBuckets(caps, map[], before), ASK_KEY, rate, y[0]) == RunBucket(Fresh(rate, (x + y)[0]), x)
  {
    hide AskBuckets, Granted, AskTimes, AskRate;
    AsksShareOneBucket(caps, map[], before);
  }

  /**
   The limit on asks is one for everybody, and tight: an ask about a readable world is refused exactly
   when the asks granted since some earlier one, by whomever and about whatever world, leave no room.
   */
  lemma AskRefusedExactly(caps: Capabilities, asks: seq<AskCall>, world: WorldKey, now: real)
    requires caps.askPerMin.Some? && caps.askPerMin.value >= 0.0
    requires InOrder((asks + [(world, now)])[0].1, asks + [(world, now)])
    ensures Ask(caps, AskBuckets(caps, map[], asks), world, now).0 == Some(RateLimited) <==>
              && Readable(caps, world)
              && exists i :: 0 <= i < |asks| && Readable(caps, asks[i].0) && Full(caps, asks, i, now)
  {
    hide Gain, WindowLimit, Max, Full, Fresh, RunBucket, Bucket.Allows, AskBuckets, AllowedBetween, InOrder,
         AskTimes, AskRate, Ask, Readable, BucketFor;
    RefusedByBucket(caps, AskBuckets(caps, map[], asks), world, now);
    if Readable(caps, world) {
      var rate := AskRate(caps).value;
      var times := AskTimes(caps, asks);
      var t0 := (times + [now])[0];
      var b := Fresh(rate, t0);
      AsksInOrder(caps, asks, world, now);
      AskBucketIs(caps, asks, times, [now]);
      AllowsIffRoom(rate, t0, times, now);
      forall i | 0 <= i < |asks| && Readable(caps, asks[i].0) && Full(caps, asks, i, now)
        ensures !RunBucket(b, times).Allows(now)
      {
        FullIsNoRoom(caps, asks, i, now);
      }
      if !RunBucket(b, times).Allows(now) {
        var k :| 0 <= k < |times|
          && AllowedBetween(b, times, k, |times|) as real + 1.0
             > WindowLimit(rate, now - times[k]);
        FullFound(caps, asks, now, k);
      }
    }
  }

  lemma RefusedByBucket(caps: Capabilities, buckets: Buckets, world: WorldKey, now: real)
    requires caps.askPerMin.Some? && caps.askPerMin.value >= 0.0
    ensures AskRate(caps).Some? && AskRate(caps).value >= 0.0
    ensures Ask(caps, buckets, world, now).0 == Some(RateLimited) <==>
              Readable(caps, world) && !BucketFor(buckets, ASK_KEY, AskRate(caps).value, now).Allows(now)
  {
    hide Bucket.Allows, Bucket.After, Fresh;
  }

  /** A window on the bucket's times without room, as one that an ask opens. */
  lemma FullFound(caps: Capabilities, asks: seq<AskCall>, now: real, k: nat)
    requires caps.askPerMin.Some? && k < |AskTimes(caps, asks)|
    requires var times, rate := AskTimes(caps, asks), AskRate(caps).value;
             AllowedBetween(Fresh(rate, times[0]), times, k, |times|) as real + 1.0
             > WindowLimit(rate, now - times[k])
    ensures exists i :: 0 <= i < |asks| && Readable(caps, asks[i].0) && Full(caps, asks, i, now)
  {
    hide Gain, WindowLimit, Max, Full, Fresh, AllowedBetween, AskTimes, Readable;
    var i := AskAt(caps, asks, k);
    FullIsNoRoom(caps, asks, i, now);
  }

  lemma AsksInOrder(caps: Capabilities, asks: seq<AskCall>, world: WorldKey, now: real)
    requires Readable(caps, world) && InOrder((asks + [(world, now)])[0].1, asks + [(world, now)])
    ensures var times := AskTimes(caps, asks);
            Nondecreasing((times + [now])[0], times + [now])
  {
    hide Readable;
    var all := asks + [(world, now)];
    AskTimesInOrder(caps, all[0].1, all);
    AskTimesConcat(caps, asks, [(world, now)]);
    assert AskTimes(caps, [(world, now)]) == [now];
  }
}
