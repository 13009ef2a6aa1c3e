/** Which submissions are diverted to a quarantine world: spam, impossible payloads, low trust. */
module Quarantine {
  import opened Prelude
  import opened Atoms

  const SECOND: int := 1_000_000_000
  const SPAM_LIMIT: nat := 5

  /** Time between two readings; a clock that reads earlier counts as no time. */
  function Gap(now: int, then_: int): int { if now < then_ then 0 else now - then_ }

  function DropOld(q: seq<int>, now: int): seq<int> {
    if q != [] && Gap(now, q[0]) > SECOND then DropOld(q[1..], now) else q
  }

  function Recorded(q: seq<int>, now: int): seq<int> { DropOld(q + [now], now) }

  function Lower(s: string): string {
    Map((c: char) => if 'A' <= c <= 'Z' then (c as int + 32) as char else c, s)
  }

  predicate Contains(s: string, t: string) {
    exists i :: 0 <= i <= |s| - |t| && t <= s[i..]
  }

  predicate ImpossiblePayload(payload: string) {
    var lower := Lower(payload);
    Contains(lower, "nan") || Contains(lower, "infinity") || Contains(lower, "impossible")
  }

  predicate LowTrust(worker: string) { "lowtrust" <= Lower(worker) }

  predicate Suspect(a: Atom, recent: nat) {
    recent > SPAM_LIMIT || ImpossiblePayload(a.payload) || (LowTrust(a.worker) && a.importance > 0.7)
  }

  /** A suspect submission moves to its quarantine world, marked once. */
  function Diverted(a: Atom): Atom {
    a.(world := "quarantine:" + a.world,
       flags := if "suspect" in a.flags then a.flags else a.flags + ["suspect"],
       labels := if "quarantine" in a.labels then a.labels else a.labels + ["quarantine"])
  }

  function QueueOf(suspicions: map<string, seq<int>>, worker: string): seq<int> {
    if worker in suspicions then suspicions[worker] else []
  }

  class SuspicionTracker {
    var suspicions: map<string, seq<int>>

    constructor ()
      ensures suspicions == map[]
    {
      suspicions := map[];
    }

    method RecordSuspicion(worker: string, now: int) returns (count: nat)
      modifies this
      ensures suspicions == old(suspicions)[worker := Recorded(QueueOf(old(suspicions), worker), now)]
      ensures count == |Recorded(QueueOf(old(suspicions), worker), now)|
    {
      var entry := QueueOf(suspicions, worker) + [now];
      while entry != [] && Gap(now, entry[0]) > SECOND
        invariant DropOld(entry, now) == Recorded(QueueOf(old(suspicions), worker), now)
        decreases |entry|
      {
        entry := entry[1..];
      }
      suspicions := suspicions[worker := entry];
      count := |entry|;
    }

    method ShouldQuarantine(a: Atom, now: int) returns (suspect: bool)
      modifies this
      ensures suspicions == old(suspicions)[a.worker := Recorded(QueueOf(old(suspicions), a.worker), now)]
      ensures suspect <==> Suspect(a, |Recorded(QueueOf(old(suspicions), a.worker), now)|)
    {
      var spam := RecordSuspicion(a.worker, now);
      suspect := spam > SPAM_LIMIT || ImpossiblePayload(a.payload) || (LowTrust(a.worker) && a.importance > 0.7);
    }
  }

  // ---------------------------------------------------------------- the queue is the last second

  function QueueAfter(times: seq<int>): seq<int> {
    if times == [] then [] else Recorded(QueueAfter(times[..|times| - 1]), times[|times| - 1])
  }

  ghost predicate Rising(times: seq<int>) {
    forall i, j :: 0 <= i <= j < |times| ==> times[i] <= times[j]
  }

  function LastSecond(times: seq<int>, now: int): seq<int> {
    Keep((t: int) => Gap(now, t) <= SECOND, times)
  }

  lemma {:induction false} DropIsKeep(q: seq<int>, now: int)
    requires Rising(q)
    ensures DropOld(q, now) == LastSecond(q, now)
  {
    if q != [] {
      if Gap(now, q[0]) > SECOND {
        DropIsKeep(q[1..], now);
      } else {
        forall t | t in q ensures Gap(now, t) <= SECOND {
          var i :| 0 <= i < |q| && q[i] == t;
        }
        KeepAll((t: int) => Gap(now, t) <= SECOND, q);
      }
    }
  }

  lemma {:induction false} KeepRising(f: int -> bool, q: seq<int>)
    requires Rising(q)
    ensures Rising(Keep(f, q))
  {
    if q != [] {
      var kept := Keep(f, q[1..]);
      KeepRising(f, q[1..]);
      forall j | 0 <= j < |kept| ensures q[0] <= kept[j] {
        assert kept[j] in kept && kept[j] in q[1..];
        var i :| 0 <= i < |q[1..]| && q[1..][i] == kept[j];
      }
    }
  }

  /**
   After a worker's submissions at nondecreasing times, its queue holds precisely those of the last
   second, the latest included; more than five of them make it suspect.
   */
  lemma {:induction false} QueueIsLastSecond(times: seq<int>)
    requires Rising(times) && times != []
    ensures QueueAfter(times) == LastSecond(times, times[|times| - 1])
  {
    hide Keep;
    var n := |times| - 1;
    var front := times[..n];
    var now := times[n];
    assert times == front + [now];
    var q := QueueAfter(front);
    var keep := (t: int) => Gap(now, t) <= SECOND;
    if front == [] {
      assert times == [now];
      DropIsKeep([now], now);
    } else {
      var before := front[n - 1];
      var was := (t: int) => Gap(before, t) <= SECOND;
      QueueIsLastSecond(front);
      KeepRising(was, front);
      forall j | 0 <= j < |q| ensures q[j] <= now {
        assert q[j] in q && q[j] in front;
        var i :| 0 <= i < n && front[i] == q[j];
      }
      assert Rising(q + [now]);
      DropIsKeep(q + [now], now);
      KeepSnoc(keep, q, now);
      KeepSnoc(keep, front, now);
      KeepTwice(keep, was, keep, front);
    }
  }
}
