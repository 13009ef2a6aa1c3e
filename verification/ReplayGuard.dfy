/**
 The replay guard: per peer, a queue of accepted correlation ids bounded by age and by length.
 The lemmas say, over whole runs, exactly what the queue holds and exactly what is refused.
 */
module ReplayGuard {
  import opened Prelude

  datatype Seen = Seen(at: int, cid: string)

  /** Time elapsed since `at`; a clock that reads earlier counts as no time. */
  function Age(now: int, at: int): nat { if now < at then 0 else now - at }

  predicate TooOld(e: Seen, now: int, window: nat) { Age(now, e.at) > window }

  predicate Carries(q: seq<Seen>, cid: string) {
    exists i :: 0 <= i < |q| && q[i].cid == cid
  }

  /** Entries leave from the front while the front is too old or the queue too long. */
  function DropFront(q: seq<Seen>, now: int, window: nat, maxEntries: nat): seq<Seen> {
    if q != [] && (TooOld(q[0], now, window) || |q| > maxEntries) then DropFront(q[1..], now, window, maxEntries)
    else q
  }

  function Push(q: seq<Seen>, e: Seen, maxEntries: nat): seq<Seen> {
    var q' := q + [e];
    if |q'| > maxEntries then q'[1..] else q'
  }

  function Accepts(q: seq<Seen>, cid: string, now: int, window: nat, maxEntries: nat): bool {
    !Carries(DropFront(q, now, window, maxEntries), cid)
  }

  function AfterCall(q: seq<Seen>, cid: string, now: int, window: nat, maxEntries: nat): seq<Seen> {
    var kept := DropFront(q, now, window, maxEntries);
    if Carries(kept, cid) then kept else Push(kept, Seen(now, cid), maxEntries)
  }

  type Guard = map<string, seq<Seen>>

  function QueueOf(guard: Guard, peer: string): seq<Seen> {
    if peer in guard then guard[peer] else []
  }

  class ReplayGuard {
    const window: nat
    const maxEntries: nat
    var inner: Guard

    constructor (window: nat, maxEntries: nat)
      ensures this.window == window && this.maxEntries == maxEntries && inner == map[]
    {
      this.window, this.maxEntries := window, maxEntries;
      inner := map[];
    }

    method ShouldAccept(peer: string, cid: string, now: int) returns (ok: bool)
      modifies this`inner
      ensures ok == Accepts(QueueOf(old(inner), peer), cid, now, window, maxEntries)
      ensures inner == old(inner)[peer := AfterCall(QueueOf(old(inner), peer), cid, now, window, maxEntries)]
    {
      var entry := QueueOf(inner, peer);
      while entry != [] && (TooOld(entry[0], now, window) || |entry| > maxEntries)
        invariant DropFront(entry, now, window, maxEntries)
               == DropFront(QueueOf(old(inner), peer), now, window, maxEntries)
        decreases |entry|
      {
        entry := entry[1..];
      }
      if Carries(entry, cid) {
        inner := inner[peer := entry];
        return false;
      }
      entry := entry + [Seen(now, cid)];
      if |entry| > maxEntries { entry := entry[1..]; }
      inner := inner[peer := entry];
      return true;
    }
  }

  // ---------------------------------------------------------------- one peer's history

  /** The accepted entries and the queue after a sequence of calls of one peer, in time order. */
  datatype History = History(accepted: seq<Seen>, queue: seq<Seen>)

  function Replay(calls: seq<Seen>, window: nat, maxEntries: nat): History {
    if calls == [] then History([], [])
    else
      var h := Replay(calls[..|calls| - 1], window, maxEntries);
      var call := calls[|calls| - 1];
      History(
        if Accepts(h.queue, call.cid, call.at, window, maxEntries) then h.accepted + [call] else h.accepted,
        AfterCall(h.queue, call.cid, call.at, window, maxEntries))
  }

  ghost predicate InTimeOrder(q: seq<Seen>) {
    forall i, j :: 0 <= i <= j < |q| ==> q[i].at <= q[j].at
  }

  function LastN<T>(s: seq<T>, n: nat): seq<T> {
    if |s| <= n then s else s[|s| - n..]
  }

  /** The specification: of the last `maxEntries` accepted entries, those still within the window. */
  function Recent(accepted: seq<Seen>, now: int, window: nat, maxEntries: nat): seq<Seen> {
    Keep((e: Seen) => !TooOld(e, now, window), LastN(accepted, maxEntries))
  }

  /** In a queue in time order, dropping from the front is filtering by age. */
  lemma {:induction false} DropIsKeep(q: seq<Seen>, now: int, window: nat, maxEntries: nat)
    requires InTimeOrder(q) && |q| <= maxEntries
    ensures DropFront(q, now, window, maxEntries) == Keep((e: Seen) => !TooOld(e, now, window), q)
  {
    if q != [] {
      if TooOld(q[0], now, window) {
        DropIsKeep(q[1..], now, window, maxEntries);
      } else {
        forall e | e in q ensures !TooOld(e, now, window) {
          var i :| 0 <= i < |q| && q[i] == e;
        }
        KeepAll((e: Seen) => !TooOld(e, now, window), q);
      }
    }
  }

  lemma {:induction false} KeepInOrder(f: Seen -> bool, q: seq<Seen>)
    requires InTimeOrder(q)
    ensures InTimeOrder(Keep(f, q))
  {
    if q != [] {
      KeepInOrder(f, q[1..]);
      forall e | e in Keep(f, q[1..]) ensures q[0].at <= e.at {
        var i :| 0 <= i < |q[1..]| && q[1..][i] == e;
      }
    }
  }

  /** Ageing a recent queue further is the same as taking the recent entries afresh. */
  lemma RecentAges(accepted: seq<Seen>, then_: int, now: int, window: nat, maxEntries: nat)
    requires InTimeOrder(accepted) && then_ <= now
    ensures DropFront(Recent(accepted, then_, window, maxEntries), now, window, maxEntries)
         == Recent(accepted, now, window, maxEntries)
  {
    var last := LastN(accepted, maxEntries);
    var f := (e: Seen) => !TooOld(e, then_, window);
    var g := (e: Seen) => !TooOld(e, now, window);
    hide Keep;
    KeepInOrder(f, last);
    DropIsKeep(Keep(f, last), now, window, maxEntries);
    KeepTwice(g, f, g, last);
  }

  lemma RecentGrows(accepted: seq<Seen>, e: Seen, window: nat, maxEntries: nat)
    requires InTimeOrder(accepted) && forall i :: 0 <= i < |accepted| ==> accepted[i].at <= e.at
    ensures Push(Recent(accepted, e.at, window, maxEntries), e, maxEntries)
         == Recent(accepted + [e], e.at, window, maxEntries)
  {
    hide Keep, TooOld;
    var g := (x: Seen) => !TooOld(x, e.at, window);
    var all := accepted + [e];
    var last := LastN(accepted, maxEntries);
    if |accepted| < maxEntries {
      assert LastN(all, maxEntries) == last + [e];
      StillFresh(e, window);
      KeepSnoc(g, last, e);
      KeepShorter(g, last);
    } else if maxEntries == 0 {
      assert LastN(all, 0) == [] && last == [];
      KeepNone(g, []);
    } else {
      StillFresh(e, window);
      FullGrows(last, e, window, maxEntries);
      assert LastN(all, maxEntries) == last[1..] + [e];
    }
  }

  lemma StillFresh(e: Seen, window: nat)
    ensures !TooOld(e, e.at, window)
  {
  }

  lemma KeepShorter(f: Seen -> bool, s: seq<Seen>)
    ensures |Keep(f, s)| <= |s|
  {
  }

  /** A full queue: either its front has aged out, or all of it is fresh and the push expels it. */
  lemma FullGrows(last: seq<Seen>, e: Seen, window: nat, maxEntries: nat)
    requires |last| == maxEntries > 0
    requires forall i :: 0 <= i < |last| ==> last[0].at <= last[i].at <= e.at
    ensures Push(Keep((x: Seen) => !TooOld(x, e.at, window), last), e, maxEntries)
         == Keep((x: Seen) => !TooOld(x, e.at, window), last[1..] + [e])
  {
    hide Keep;
    var g := (x: Seen) => !TooOld(x, e.at, window);
    var rest := last[1..];
    assert last == [last[0]] + rest;
    assert last[1..] + [e] == rest + [e];
    KeepSnoc(g, rest, e);
    KeepCons(g, last[0], rest);
    if g(last[0]) {
      forall x | x in last ensures g(x) {
        var i :| 0 <= i < |last| && last[i] == x;
      }
      KeepAll(g, last);
      KeepAll(g, rest);
    } else {
      KeepShorter(g, rest);
    }
  }

  /**
   The queue at any point of a run is exactly the recent part of what was accepted, as of the last
   call; and the accepted entries are in time order.
   */
  lemma {:induction false} QueueIsRecent(calls: seq<Seen>, window: nat, maxEntries: nat)
    requires InTimeOrder(calls)
    ensures var h := Replay(calls, window, maxEntries);
            && InTimeOrder(h.accepted)
            && (forall e :: e in h.accepted ==> e in calls)
            && (calls == [] ==> h == History([], []))
            && (calls != [] ==> h.queue == Recent(h.accepted, calls[|calls| - 1].at, window, maxEntries))
  {
    hide Recent, AfterCall, Accepts;
    if calls != [] {
      var n := |calls| - 1;
      var front := calls[..n];
      var call := calls[n];
      var h := Replay(front, window, maxEntries);
      QueueIsRecent(front, window, maxEntries);
      CallMeaning(front, call, window, maxEntries);
      forall e | e in h.accepted ensures e.at <= call.at {
        var i :| 0 <= i < n && calls[i] == e;
      }
    }
  }

  /** What one more call does to a queue that is the recent part of the accepted entries. */
  lemma CallMeaning(front: seq<Seen>, call: Seen, window: nat, maxEntries: nat)
    requires InTimeOrder(front + [call])
    requires var h := Replay(front, window, maxEntries);
             && InTimeOrder(h.accepted) && (forall e :: e in h.accepted ==> e in front)
             && (front == [] ==> h == History([], []))
             && (front != [] ==> h.queue == Recent(h.accepted, front[|front| - 1].at, window, maxEntries))
    ensures var h := Replay(front, window, maxEntries);
            var recent := Recent(h.accepted, call.at, window, maxEntries);
            && Accepts(h.queue, call.cid, call.at, window, maxEntries) == !Carries(recent, call.cid)
            && AfterCall(h.queue, call.cid, call.at, window, maxEntries)
               == if Carries(recent, call.cid) then recent
                  else Recent(h.accepted + [call], call.at, window, maxEntries)
  {
    var h := Replay(front, window, maxEntries);
    var all := front + [call];
    assert forall i :: 0 <= i < |front| ==> all[i] == front[i];
    assert all[|front|] == call;
    if front != [] {
      assert all[|front| - 1].at <= all[|front|].at;
      RecentAges(h.accepted, front[|front| - 1].at, call.at, window, maxEntries);
    }
    forall e | e in h.accepted ensures e.at <= call.at {
      var i :| 0 <= i < |front| && front[i] == e;
      assert all[i].at <= all[|front|].at;
    }
    RecentGrows(h.accepted, call, window, maxEntries);
  }

  /** An accepted entry that still counts against `call`. */
  ghost predicate Blocks(accepted: seq<Seen>, i: int, call: Seen, window: nat, maxEntries: nat) {
    && 0 <= i < |accepted| && |accepted| - i <= maxEntries
    && accepted[i].cid == call.cid && Age(call.at, accepted[i].at) <= window
  }

  lemma LastNAt(accepted: seq<Seen>, maxEntries: nat, e: Seen)
    ensures e in LastN(accepted, maxEntries) <==>
              exists i :: 0 <= i < |accepted| && |accepted| - i <= maxEntries && accepted[i] == e
  {
    var last := LastN(accepted, maxEntries);
    var skip := |accepted| - |last|;
    assert forall j :: 0 <= j < |last| ==> last[j] == accepted[skip + j];
    if i :| 0 <= i < |accepted| && |accepted| - i <= maxEntries && accepted[i] == e {
      assert last[i - skip] == e;
    }
  }

  lemma CarriedIsBlocked(accepted: seq<Seen>, call: Seen, window: nat, maxEntries: nat)
    ensures Carries(Recent(accepted, call.at, window, maxEntries), call.cid) <==>
              exists i :: Blocks(accepted, i, call, window, maxEntries)
  {
    hide LastN, Keep;
    var recent := Recent(accepted, call.at, window, maxEntries);
    if Carries(recent, call.cid) {
      var k :| 0 <= k < |recent| && recent[k].cid == call.cid;
      assert recent[k] in recent;
      LastNAt(accepted, maxEntries, recent[k]);
      var i :| 0 <= i < |accepted| && |accepted| - i <= maxEntries && accepted[i] == recent[k];
      assert Blocks(accepted, i, call, window, maxEntries);
    }
    if i :| Blocks(accepted, i, call, window, maxEntries) {
      LastNAt(accepted, maxEntries, accepted[i]);
      assert accepted[i] in recent;
    }
  }

  /**
   Exactly which call is refused: one whose correlation id is carried by one of the last
   `maxEntries` accepted entries, not older than the window at the time of the call.
   */
  lemma RefusedExactly(calls: seq<Seen>, call: Seen, window: nat, maxEntries: nat)
    requires InTimeOrder(calls + [call])
    ensures var h := Replay(calls, window, maxEntries);
            Accepts(h.queue, call.cid, call.at, window, maxEntries) <==>
              !exists i :: Blocks(h.accepted, i, call, window, maxEntries)
  {
    hide Recent, AfterCall, Accepts, Carries, Replay, Blocks;
    var h := Replay(calls, window, maxEntries);
    PrefixInOrder(calls, call);
    QueueIsRecent(calls, window, maxEntries);
    CallMeaning(calls, call, window, maxEntries);
    CarriedIsBlocked(h.accepted, call, window, maxEntries);
  }

  lemma PrefixInOrder(calls: seq<Seen>, call: Seen)
    requires InTimeOrder(calls + [call])
    ensures InTimeOrder(calls)
  {
    assert forall i :: 0 <= i < |calls| ==> (calls + [call])[i] == calls[i];
  }

  /**
   A correlation id is accepted a second time only after the window has passed, or after at least
   `maxEntries` other ids of that peer were accepted in between.
   */
  lemma {:induction false} AcceptedTwice(calls: seq<Seen>, window: nat, maxEntries: nat, i: nat, j: nat)
    requires InTimeOrder(calls) && i < j < |Replay(calls, window, maxEntries).accepted|
    requires var acc := Replay(calls, window, maxEntries).accepted; acc[i].cid == acc[j].cid
    ensures var acc := Replay(calls, window, maxEntries).accepted;
            acc[j].at - acc[i].at > window || j - i - 1 >= maxEntries
    decreases |calls|
  {
    var n := |calls| - 1;
    var front := calls[..n];
    var h := Replay(front, window, maxEntries);
    var acc := Replay(calls, window, maxEntries).accepted;
    assert front + [calls[n]] == calls;
    if j < |h.accepted| {
      AcceptedTwice(front, window, maxEntries, i, j);
    } else {
      RefusedExactly(front, calls[n], window, maxEntries);
      assert !Blocks(h.accepted, i, calls[n], window, maxEntries);
    }
  }

  // ---------------------------------------------------------------- peers

  datatype PeerCall = PeerCall(peer: string, call: Seen)

  function RunGuard(calls: seq<PeerCall>, window: nat, maxEntries: nat): Guard {
    if calls == [] then map[]
    else
      var g := RunGuard(calls[..|calls| - 1], window, maxEntries);
      var c := calls[|calls| - 1];
      g[c.peer := AfterCall(QueueOf(g, c.peer), c.call.cid, c.call.at, window, maxEntries)]
  }

  function CallsOf(calls: seq<PeerCall>, peer: string): seq<Seen> {
    if calls == [] then []
    else
      var c := calls[|calls| - 1];
      CallsOf(calls[..|calls| - 1], peer) + (if c.peer == peer then [c.call] else [])
  }

  /** Peers do not share entries: the queue of one depends on its own calls alone. */
  lemma {:induction false} PeersAreIndependent(calls: seq<PeerCall>, window: nat, maxEntries: nat, peer: string)
    ensures QueueOf(RunGuard(calls, window, maxEntries), peer)
         == Replay(CallsOf(calls, peer), window, maxEntries).queue
  {
    if calls != [] {
      var front := calls[..|calls| - 1];
      var c := calls[|calls| - 1];
      PeersAreIndependent(front, window, maxEntries, peer);
      if c.peer == peer {
        var mine := CallsOf(front, peer);
        assert (mine + [c.call])[..|mine|] == mine;
      } else {
        assert CallsOf(front, peer) + [] == CallsOf(front, peer);
      }
    }
  }
}
