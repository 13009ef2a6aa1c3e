/**
 The receive path of the replicator: a buffer that is popped from the back, the replay guard, the
 subscription and policy checks, and a bounded inbox that drops its oldest batch when full.
 */
module Inbox {
  import opened Prelude
  import opened Text
  import opened Atoms
  import opened ReplayGuard

  datatype AtomBatch = AtomBatch(world: WorldKey, atoms: seq<Atom>)

  datatype Message = Batch(batch: AtomBatch) | OtherMessage

  datatype Envelope = Envelope(from: string, correlationId: string, payload: string)

  type Item = (string, AtomBatch)

  // ---------------------------------------------------------------- world patterns

  predicate MatchesWorld(pattern: string, world: WorldKey) {
    if pattern == "*" then true
    else if EndsWith(pattern, ":*") then pattern[..|pattern| - 2] <= world
    else if EndsWith(pattern, "*") then pattern[..|pattern| - 1] <= world
    else pattern == world
  }

  /** A namespace wildcard is a bare prefix test: `tenant:a:*` also takes in the world `tenant:ab`. */
  lemma NamespaceWildcardIsPrefix(ns: string, world: WorldKey)
    ensures MatchesWorld(ns + ":*", world) <==> ns <= world
    ensures !EndsWith(ns, ":") ==> (MatchesWorld(ns + ":*", world) <==> MatchesWorld(ns + "*", world))
  {
    assert (ns + ":*")[..|ns|] == ns && (ns + ":*")[|ns|..] == ":*";
    assert (ns + "*")[..|ns|] == ns && (ns + "*")[|ns|..] == "*";
    if EndsWith(ns + "*", ":*") { assert ns[|ns| - 1..] == ":"; }
  }

  /**
   What a pattern takes: everything, the world it names, or, before a closing `*` or `:*`, every world
   that begins so.
   */
  ghost predicate Takes(pattern: string, world: WorldKey) {
    pattern == "*" || pattern == world
    || exists ns :: ns <= world && (pattern == ns + "*" || pattern == ns + ":*")
  }

  lemma MatchesTakes(pattern: string, world: WorldKey)
    ensures MatchesWorld(pattern, world) <==> Takes(pattern, world)
  {
    if EndsWith(pattern, ":*") {
      Prefixed(pattern[..|pattern| - 2], ":*", pattern, world);
    } else if EndsWith(pattern, "*") {
      Prefixed(pattern[..|pattern| - 1], "*", pattern, world);
    }
    if ns :| ns <= world && (pattern == ns + "*" || pattern == ns + ":*") { Wildcard(ns, pattern, world); }
  }

  lemma Prefixed(ns: string, end: string, pattern: string, world: WorldKey)
    requires end in ["*", ":*"] && EndsWith(pattern, end) && ns == pattern[..|pattern| - |end|]
    ensures ns <= world ==> Takes(pattern, world)
  {
    assert pattern == ns + end;
  }

  lemma Wildcard(ns: string, pattern: string, world: WorldKey)
    requires ns <= world && (pattern == ns + "*" || pattern == ns + ":*")
    ensures MatchesWorld(pattern, world)
  {
    if pattern == ns + ":*" {
      assert pattern[|ns|..] == ":*" && pattern[..|ns|] == ns;
    } else {
      assert pattern[|ns|..] == "*" && pattern[..|ns|] == ns;
      if EndsWith(pattern, ":*") { assert pattern[..|pattern| - 2] <= ns; }
    }
  }

  // ---------------------------------------------------------------- what one envelope does

  /** The fixed parts of a replicator. The policy and the message decoder are arbitrary. */
  datatype Config = Config(
    patterns: seq<string>,
    maxInbox: nat,
    window: nat,
    maxEntries: nat,
    canReceive: (WorldKey, string) -> bool,
    decode: string -> Option<Message>)

  datatype State = State(guard: Guard, incoming: seq<Item>, droppedInbox: nat, droppedReplay: nat)

  datatype Outcome = Replayed | Undecodable | NotABatch | Unsubscribed | Forbidden | Enqueued

  predicate Subscribed(cfg: Config, world: WorldKey) {
    exists i :: 0 <= i < |cfg.patterns| && MatchesWorld(cfg.patterns[i], world)
  }

  function OutcomeOf(cfg: Config, st: State, env: Envelope, now: int): Outcome {
    if !Accepts(QueueOf(st.guard, env.from), env.correlationId, now, cfg.window, cfg.maxEntries) then Replayed
    else match cfg.decode(env.payload)
         case None => Undecodable
         case Some(OtherMessage) => NotABatch
         case Some(Batch(b)) =>
           if !Subscribed(cfg, b.world) then Unsubscribed
           else if !cfg.canReceive(b.world, env.from) then Forbidden
           else Enqueued
  }

  /** The item an enqueued envelope carries. */
  function ItemOf(cfg: Config, env: Envelope): Item
    requires cfg.decode(env.payload).Some? && cfg.decode(env.payload).value.Batch?
  {
    (env.from, cfg.decode(env.payload).value.batch)
  }

  predicate Full(cfg: Config, q: seq<Item>) { |q| >= cfg.maxInbox }

  function Enqueue(cfg: Config, q: seq<Item>, item: Item): seq<Item> {
    (if Full(cfg, q) && q != [] then q[1..] else q) + [item]
  }

  function Handle(cfg: Config, st: State, env: Envelope, now: int): State {
    var guard := st.guard[env.from := AfterCall(QueueOf(st.guard, env.from), env.correlationId, now,
                                                cfg.window, cfg.maxEntries)];
    match OutcomeOf(cfg, st, env, now)
    case Replayed => st.(guard := guard, droppedReplay := st.droppedReplay + 1)
    case Enqueued =>
      State(guard, Enqueue(cfg, st.incoming, ItemOf(cfg, env)),
            st.droppedInbox + (if Full(cfg, st.incoming) then 1 else 0), st.droppedReplay)
    case _ => st.(guard := guard)
  }

  /** What one poll of the whole buffer leaves, and whether it ended without a decode error. */
  datatype Drained = Drained(state: State, rx: seq<Envelope>, clean: bool)

  /** Envelopes are taken from the back; an undecodable one is consumed and ends the poll. */
  function Drain(cfg: Config, st: State, rx: seq<Envelope>, clock: seq<int>): Drained
    requires |clock| >= |rx|
    decreases |rx|
  {
    if rx == [] then Drained(st, rx, true)
    else
      var env := rx[|rx| - 1];
      var rest := rx[..|rx| - 1];
      if OutcomeOf(cfg, st, env, clock[0]) == Undecodable then Drained(Handle(cfg, st, env, clock[0]), rest, false)
      else Drain(cfg, Handle(cfg, st, env, clock[0]), rest, clock[1..])
  }

  // ---------------------------------------------------------------- whole runs

  datatype Event = Arrive(env: Envelope) | PollOne(now: int) | Take

  datatype Polled = Polled(env: Envelope, at: int, outcome: Outcome)

  datatype Departure = Departure(item: Item, delivered: bool)

  /** A run so far: everything that arrived, was polled, or left the inbox, and what is still there. */
  datatype Trace = Trace(
    arrived: seq<Envelope>, rx: seq<Envelope>, state: State, polled: seq<Polled>, departed: seq<Departure>)

  const START := Trace([], [], State(map[], [], 0, 0), [], [])

  function Advance(cfg: Config, h: Trace, e: Event): Trace {
    match e
    case Arrive(env) => h.(arrived := h.arrived + [env], rx := h.rx + [env])
    case PollOne(now) =>
      if h.rx == [] then h
      else
        var env := h.rx[|h.rx| - 1];
        var outcome := OutcomeOf(cfg, h.state, env, now);
        Trace(h.arrived, h.rx[..|h.rx| - 1], Handle(cfg, h.state, env, now), h.polled + [Polled(env, now, outcome)],
                if outcome == Enqueued && Full(cfg, h.state.incoming) && h.state.incoming != []
                then h.departed + [Departure(h.state.incoming[0], false)] else h.departed)
    case Take =>
      if h.state.incoming == [] then h
      else h.(state := h.state.(incoming := h.state.incoming[1..]),
              departed := h.departed + [Departure(h.state.incoming[0], true)])
  }

  function RunFrom(cfg: Config, h: Trace, events: seq<Event>): Trace
    decreases |events|
  {
    if events == [] then h else RunFrom(cfg, Advance(cfg, h, events[0]), events[1..])
  }

  /** The items that were enqueued, in order. */
  function EnqueuedItems(cfg: Config, polled: seq<Polled>): seq<Item> {
    if polled == [] then []
    else
      var p := polled[|polled| - 1];
      EnqueuedItems(cfg, polled[..|polled| - 1])
      + (if p.outcome == Enqueued && cfg.decode(p.env.payload).Some? && cfg.decode(p.env.payload).value.Batch?
         then [ItemOf(cfg, p.env)] else [])
  }

  function Items(departed: seq<Departure>): (r: seq<Item>)
    ensures |r| == |departed| && forall i :: 0 <= i < |r| ==> r[i] == departed[i].item
  {
    Map((d: Departure) => d.item, departed)
  }

  function Delivered(departed: seq<Departure>): seq<Item> {
    Items(Keep((d: Departure) => d.delivered, departed))
  }

  function Lost(departed: seq<Departure>): nat { |Keep((d: Departure) => !d.delivered, departed)| }

  function Refusals(polled: seq<Polled>): nat { |Keep((p: Polled) => p.outcome == Replayed, polled)| }

  function GuardCalls(polled: seq<Polled>): (r: seq<PeerCall>)
    ensures |r| == |polled|
  {
    Map((p: Polled) => PeerCall(p.env.from, Seen(p.at, p.env.correlationId)), polled)
  }

  function PolledEnvelopes(polled: seq<Polled>): (r: seq<Envelope>)
    ensures |r| == |polled|
  {
    Map((p: Polled) => p.env, polled)
  }

  /** Whether the replay guard, given everything polled before, refuses the envelope polled at `i`. */
  predicate RefusedAt(cfg: Config, polled: seq<Polled>, i: nat)
    requires i < |polled|
  {
    var p := polled[i];
    var queue := QueueOf(RunGuard(GuardCalls(polled[..i]), cfg.window, cfg.maxEntries), p.env.from);
    !Accepts(queue, p.env.correlationId, p.at, cfg.window, cfg.maxEntries)
  }

  /** The envelopes counted as replays are exactly those that the guard refuses. */
  ghost predicate Judged(cfg: Config, polled: seq<Polled>) {
    forall i :: 0 <= i < |polled| ==> (polled[i].outcome == Replayed <==> RefusedAt(cfg, polled, i))
  }

  /** The other checks an enqueued envelope passed. */
  predicate Passed(cfg: Config, env: Envelope) {
    && cfg.decode(env.payload).Some? && cfg.decode(env.payload).value.Batch?
    && Subscribed(cfg, cfg.decode(env.payload).value.batch.world)
    && cfg.canReceive(cfg.decode(env.payload).value.batch.world, env.from)
  }

  /** The outcome of an envelope that the replay guard lets through, by its payload and sender alone. */
  ghost predicate Checked(cfg: Config, env: Envelope, outcome: Outcome) {
    match cfg.decode(env.payload)
    case None => outcome == Undecodable
    case Some(OtherMessage) => outcome == NotABatch
    case Some(Batch(b)) =>
      if forall p :: p in cfg.patterns ==> !Takes(p, b.world) then outcome == Unsubscribed
      else outcome == if cfg.canReceive(b.world, env.from) then Enqueued else Forbidden
  }

  ghost predicate AllChecked(cfg: Config, polled: seq<Polled>) {
    forall p :: p in polled && p.outcome != Replayed ==> Checked(cfg, p.env, p.outcome)
  }

  lemma SubscribedTakes(cfg: Config, world: WorldKey)
    ensures Subscribed(cfg, world) <==> exists p :: p in cfg.patterns && Takes(p, world)
  {
    hide MatchesWorld, Takes;
    forall p ensures MatchesWorld(p, world) <==> Takes(p, world) { MatchesTakes(p, world); }
    if p :| p in cfg.patterns && Takes(p, world) {
      var i :| 0 <= i < |cfg.patterns| && cfg.patterns[i] == p;
      assert MatchesWorld(cfg.patterns[i], world);
    }
  }

  lemma OutcomeChecked(cfg: Config, st: State, env: Envelope, now: int)
    ensures OutcomeOf(cfg, st, env, now) != Replayed ==> Checked(cfg, env, OutcomeOf(cfg, st, env, now))
  {
    hide Accepts, Subscribed, Takes;
    match cfg.decode(env.payload) {
      case Some(Batch(b)) => SubscribedTakes(cfg, b.world);
      case _ =>
    }
  }

  ghost predicate Conserved(cfg: Config, h: Trace) {
    && |h.state.incoming| <= cfg.maxInbox
    && Items(h.departed) + h.state.incoming == EnqueuedItems(cfg, h.polled)
    && h.state.droppedInbox == Lost(h.departed)
    && h.state.droppedReplay == Refusals(h.polled)
    && Judged(cfg, h.polled)
    && AllChecked(cfg, h.polled)
    && (forall p :: p in h.polled && p.outcome == Enqueued ==> Passed(cfg, p.env))
    && h.state.guard == RunGuard(GuardCalls(h.polled), cfg.window, cfg.maxEntries)
    && multiset(h.arrived) == multiset(PolledEnvelopes(h.polled)) + multiset(h.rx)
  }

  lemma ItemsSnoc(departed: seq<Departure>, d: Departure)
    ensures Items(departed + [d]) == Items(departed) + [d.item]
    ensures Lost(departed + [d]) == Lost(departed) + (if d.delivered then 0 else 1)
  {
    KeepSnoc((x: Departure) => !x.delivered, departed, d);
  }

  lemma EnqueuedSnoc(cfg: Config, polled: seq<Polled>, p: Polled)
    requires p.outcome == Enqueued ==> Passed(cfg, p.env)
    ensures EnqueuedItems(cfg, polled + [p])
         == EnqueuedItems(cfg, polled) + (if p.outcome == Enqueued then [ItemOf(cfg, p.env)] else [])
  {
    hide Subscribed;
    assert (polled + [p])[..|polled|] == polled;
  }

  lemma PolledSnoc(cfg: Config, polled: seq<Polled>, p: Polled)
    requires p.outcome == Enqueued ==> Passed(cfg, p.env)
    ensures EnqueuedItems(cfg, polled + [p])
         == EnqueuedItems(cfg, polled) + (if p.outcome == Enqueued then [ItemOf(cfg, p.env)] else [])
    ensures Refusals(polled + [p]) == Refusals(polled) + (if p.outcome == Replayed then 1 else 0)
    ensures GuardCalls(polled + [p]) == GuardCalls(polled) + [PeerCall(p.env.from, Seen(p.at, p.env.correlationId))]
    ensures PolledEnvelopes(polled + [p]) == PolledEnvelopes(polled) + [p.env]
  {
    hide EnqueuedItems, Subscribed, Keep;
    EnqueuedSnoc(cfg, polled, p);
    KeepSnoc((x: Polled) => x.outcome == Replayed, polled, p);
  }

  lemma FrontLeaves(gone: seq<Item>, q: seq<Item>)
    requires q != []
    ensures gone + [q[0]] + q[1..] == gone + q
  {
  }

  lemma TakeKeeps(cfg: Config, h: Trace)
    requires Conserved(cfg, h) && h.state.incoming != []
    ensures Conserved(cfg, Advance(cfg, h, Take))
  {
    hide Items, Lost, EnqueuedItems, Refusals, GuardCalls, PolledEnvelopes, RunGuard, Passed, Judged;
    ItemsSnoc(h.departed, Departure(h.state.incoming[0], true));
    FrontLeaves(Items(h.departed), h.state.incoming);
  }

  /** An enqueue keeps the order: what has left, then what is queued, then the new item. */
  lemma EnqueueOrder(cfg: Config, gone: seq<Item>, q: seq<Item>, item: Item)
    requires cfg.maxInbox >= 1 && |q| <= cfg.maxInbox
    ensures |Enqueue(cfg, q, item)| <= cfg.maxInbox
    ensures Full(cfg, q) ==> q != [] && gone + [q[0]] + Enqueue(cfg, q, item) == gone + q + [item]
    ensures !Full(cfg, q) ==> gone + Enqueue(cfg, q, item) == gone + q + [item]
  {
    if Full(cfg, q) { assert gone + [q[0]] + (q[1..] + [item]) == gone + q + [item]; }
  }

  /** The inbox and its drop counter, across one polled envelope. */
  lemma PollKeepsQueue(cfg: Config, h: Trace, now: int)
    requires cfg.maxInbox >= 1 && Conserved(cfg, h) && h.rx != []
    ensures var h' := Advance(cfg, h, PollOne(now));
            && |h'.state.incoming| <= cfg.maxInbox
            && Items(h'.departed) + h'.state.incoming == EnqueuedItems(cfg, h'.polled)
            && h'.state.droppedInbox == Lost(h'.departed)
  {
    hide Accepts, AfterCall, RunGuard, Subscribed, Items, Lost, EnqueuedItems, Refusals, GuardCalls, PolledEnvelopes;
    hide Enqueue;
    var env := h.rx[|h.rx| - 1];
    var p := Polled(env, now, OutcomeOf(cfg, h.state, env, now));
    var q := h.state.incoming;
    PolledSnoc(cfg, h.polled, p);
    if p.outcome == Enqueued {
      EnqueueOrder(cfg, Items(h.departed), q, ItemOf(cfg, env));
      if Full(cfg, q) { ItemsSnoc(h.departed, Departure(q[0], false)); }
    } else {
      assert EnqueuedItems(cfg, h.polled) + [] == EnqueuedItems(cfg, h.polled);
    }
  }

  /** Whatever comes of an envelope, the guard has seen it, and only a refusal is counted. */
  lemma HandleGuard(cfg: Config, st: State, env: Envelope, now: int)
    ensures var st' := Handle(cfg, st, env, now);
            && st'.guard == st.guard[env.from := AfterCall(QueueOf(st.guard, env.from), env.correlationId, now,
                                                           cfg.window, cfg.maxEntries)]
            && st'.droppedReplay
               == st.droppedReplay + (if OutcomeOf(cfg, st, env, now) == Replayed then 1 else 0)
            && (OutcomeOf(cfg, st, env, now) == Enqueued ==> Passed(cfg, env))
  {
    hide Accepts, AfterCall, Subscribed;
  }

  lemma OutcomeJudged(cfg: Config, st: State, env: Envelope, now: int)
    ensures OutcomeOf(cfg, st, env, now) == Replayed <==>
              !Accepts(QueueOf(st.guard, env.from), env.correlationId, now, cfg.window, cfg.maxEntries)
  {
    hide Accepts, Subscribed;
  }

  lemma JudgedSnoc(cfg: Config, polled: seq<Polled>, p: Polled)
    requires Judged(cfg, polled)
    requires var queue := QueueOf(RunGuard(GuardCalls(polled), cfg.window, cfg.maxEntries), p.env.from);
             p.outcome == Replayed <==>
               !Accepts(queue, p.env.correlationId, p.at, cfg.window, cfg.maxEntries)
    ensures Judged(cfg, polled + [p])
  {
    hide Accepts, RunGuard, GuardCalls, QueueOf;
    var all := polled + [p];
    forall i | 0 <= i < |all|
      ensures all[i].outcome == Replayed <==> RefusedAt(cfg, all, i)
    {
      if i < |polled| { assert all[..i] == polled[..i]; } else { assert all[..i] == polled; }
    }
  }

  /** The replay guard, its counter and the envelope count, across one polled envelope. */
  lemma PollKeepsGuard(cfg: Config, h: Trace, now: int)
    requires Conserved(cfg, h) && h.rx != []
    ensures var h' := Advance(cfg, h, PollOne(now));
            && h'.state.droppedReplay == Refusals(h'.polled)
            && Judged(cfg, h'.polled)
            && AllChecked(cfg, h'.polled)
            && (forall p :: p in h'.polled && p.outcome == Enqueued ==> Passed(cfg, p.env))
            && h'.state.guard == RunGuard(GuardCalls(h'.polled), cfg.window, cfg.maxEntries)
            && multiset(h'.arrived) == multiset(PolledEnvelopes(h'.polled)) + multiset(h'.rx)
  {
    hide AfterCall, EnqueuedItems, Items, Refusals, GuardCalls, PolledEnvelopes, Lost, Handle, OutcomeOf, Passed;
    hide RunGuard, Accepts, Judged, QueueOf, Full, Checked;
    var env := h.rx[|h.rx| - 1];
    var p := Polled(env, now, OutcomeOf(cfg, h.state, env, now));
    HandleGuard(cfg, h.state, env, now);
    PolledSnoc(cfg, h.polled, p);
    OutcomeJudged(cfg, h.state, env, now);
    OutcomeChecked(cfg, h.state, env, now);
    JudgedSnoc(cfg, h.polled, p);
    GuardSnoc(GuardCalls(h.polled), PeerCall(env.from, Seen(now, env.correlationId)), cfg.window, cfg.maxEntries);
    OneMoved(h.arrived, PolledEnvelopes(h.polled), h.rx);
  }

  lemma GuardSnoc(calls: seq<PeerCall>, c: PeerCall, window: nat, maxEntries: nat)
    ensures RunGuard(calls + [c], window, maxEntries)
         == RunGuard(calls, window, maxEntries)
              [c.peer := AfterCall(QueueOf(RunGuard(calls, window, maxEntries), c.peer), c.call.cid, c.call.at,
                                   window, maxEntries)]
  {
    assert (calls + [c])[..|calls|] == calls;
  }

  lemma OneMoved(all: seq<Envelope>, done: seq<Envelope>, rx: seq<Envelope>)
    requires rx != [] && multiset(all) == multiset(done) + multiset(rx)
    ensures multiset(all) == multiset(done + [rx[|rx| - 1]]) + multiset(rx[..|rx| - 1])
  {
    assert rx == rx[..|rx| - 1] + [rx[|rx| - 1]];
  }

  lemma AdvanceKeeps(cfg: Config, h: Trace, e: Event)
    requires cfg.maxInbox >= 1 && Conserved(cfg, h)
    ensures Conserved(cfg, Advance(cfg, h, e))
  {
    match e {
      case Arrive(env) =>
      case PollOne(now) => if h.rx != [] { PollKeepsQueue(cfg, h, now); PollKeepsGuard(cfg, h, now); }
      case Take => if h.state.incoming != [] { TakeKeeps(cfg, h); }
    }
  }

  lemma {:induction false} RunKeeps(cfg: Config, h: Trace, events: seq<Event>)
    requires cfg.maxInbox >= 1 && Conserved(cfg, h)
    ensures Conserved(cfg, RunFrom(cfg, h, events))
    decreases |events|
  {
    if events != [] {
      AdvanceKeeps(cfg, h, events[0]);
      RunKeeps(cfg, Advance(cfg, h, events[0]), events[1..]);
    }
  }

  lemma StartConserves(cfg: Config)
    ensures Conserved(cfg, START)
  {
    assert RunGuard(GuardCalls([]), cfg.window, cfg.maxEntries) == map[];
  }

  /**
   Conservation over every run: the inbox stays within its bound, what was enqueued has left from
   the front in order or is still queued, the two counters count exactly the dropped batches and
   the refused envelopes, nothing arrives twice or vanishes, an envelope is refused exactly when the
   guard's history refuses it, and every batch passed its checks.
   */
  lemma EveryRunConserves(cfg: Config, events: seq<Event>)
    requires cfg.maxInbox >= 1
    ensures var h := RunFrom(cfg, START, events);
            && Conserved(cfg, h)
            && |EnqueuedItems(cfg, h.polled)| == |Delivered(h.departed)| + h.state.droppedInbox + |h.state.incoming|
            && |h.arrived| == |h.polled| + |h.rx|
  {
    StartConserves(cfg);
    RunKeeps(cfg, START, events);
    var h := RunFrom(cfg, START, events);
    KeepSplits(h.departed);
    assert |multiset(h.arrived)| == |multiset(PolledEnvelopes(h.polled))| + |multiset(h.rx)|;
  }

  lemma {:induction false} KeepSplits(departed: seq<Departure>)
    ensures |Keep((d: Departure) => d.delivered, departed)| + |Keep((d: Departure) => !d.delivered, departed)|
         == |departed|
  {
    if departed != [] { KeepSplits(departed[1..]); }
  }

  // ---------------------------------------------------------------- which envelopes are replays

  predicate TakenFrom(peer: string, p: Polled) { p.env.from == peer && p.outcome != Replayed }

  function SeenOf(p: Polled): Seen { Seen(p.at, p.env.correlationId) }

  /** The polled envelopes of one peer that the guard let through. */
  function Taken(polled: seq<Polled>, peer: string): seq<Polled> {
    Keep((p: Polled) => TakenFrom(peer, p), polled)
  }

  ghost predicate PolledInOrder(polled: seq<Polled>) {
    forall i, j :: 0 <= i <= j < |polled| ==> polled[i].at <= polled[j].at
  }

  lemma TakenAppend(x: seq<Polled>, y: seq<Polled>, peer: string)
    ensures Taken(x + y, peer) == Taken(x, peer) + Taken(y, peer)
  {
    KeepAppend((p: Polled) => TakenFrom(peer, p), x, y);
  }

  lemma TakenOne(p: Polled, peer: string)
    ensures Taken([p], peer) == if TakenFrom(peer, p) then [p] else []
  {
    KeepSnoc((q: Polled) => TakenFrom(peer, q), [], p);
    assert [] + [p] == [p];
  }

  lemma CallsOfSnoc(polled: seq<Polled>, p: Polled, peer: string)
    ensures CallsOf(GuardCalls(polled + [p]), peer)
         == CallsOf(GuardCalls(polled), peer) + (if p.env.from == peer then [SeenOf(p)] else [])
  {
    var calls := GuardCalls(polled);
    var c := PeerCall(p.env.from, SeenOf(p));
    assert GuardCalls(polled + [p]) == calls + [c];
    assert (calls + [c])[..|calls|] == calls;
  }

  /** One more call of a peer, in its history. */
  lemma ReplaySnoc(calls: seq<Seen>, call: Seen, window: nat, maxEntries: nat)
    ensures var h := Replay(calls, window, maxEntries);
            Replay(calls + [call], window, maxEntries).accepted
            == if Accepts(h.queue, call.cid, call.at, window, maxEntries) then h.accepted + [call] else h.accepted
  {
    hide Accepts, AfterCall;
    assert (calls + [call])[..|calls|] == calls;
  }

  /** What the guard's history of a peer accepted is what was let through. */
  lemma {:induction false} AcceptedIsTaken(cfg: Config, polled: seq<Polled>, peer: string)
    requires Judged(cfg, polled)
    ensures Replay(CallsOf(GuardCalls(polled), peer), cfg.window, cfg.maxEntries).accepted
         == Map(SeenOf, Taken(polled, peer))
  {
    hide Accepts, GuardCalls, RunGuard, CallsOf, Replay, Taken;
    if polled == [] {
      NothingTaken(cfg, peer);
    } else {
      var n := |polled| - 1;
      var front := polled[..n];
      var p := polled[n];
      assert polled == front + [p];
      JudgedFront(cfg, front, p);
      AcceptedIsTaken(cfg, front, peer);
      CallsOfSnoc(front, p, peer);
      TakenAppend(front, [p], peer);
      TakenOne(p, peer);
      if p.env.from == peer {
        ReplaySnoc(CallsOf(GuardCalls(front), peer), SeenOf(p), cfg.window, cfg.maxEntries);
        PeersAreIndependent(GuardCalls(front), cfg.window, cfg.maxEntries, peer);
      } else {
        assert CallsOf(GuardCalls(front), peer) + [] == CallsOf(GuardCalls(front), peer);
      }
    }
  }

  lemma NothingTaken(cfg: Config, peer: string)
    ensures Replay(CallsOf(GuardCalls([]), peer), cfg.window, cfg.maxEntries).accepted == Map(SeenOf, Taken([], peer))
  {
  }

  lemma JudgedFront(cfg: Config, front: seq<Polled>, p: Polled)
    requires Judged(cfg, front + [p])
    ensures Judged(cfg, front)
    ensures var queue := QueueOf(RunGuard(GuardCalls(front), cfg.window, cfg.maxEntries), p.env.from);
            p.outcome == Replayed <==> !Accepts(queue, p.env.correlationId, p.at, cfg.window, cfg.maxEntries)
  {
    hide Accepts, RunGuard, GuardCalls, QueueOf;
    var all := front + [p];
    assert all[..|front|] == front;
    assert all[|front|].outcome == Replayed <==> RefusedAt(cfg, all, |front|);
    forall i | 0 <= i < |front|
      ensures front[i].outcome == Replayed <==> RefusedAt(cfg, front, i)
    {
      assert all[..i] == front[..i];
      assert all[i].outcome == Replayed <==> RefusedAt(cfg, all, i);
    }
  }

  /** The envelope at `i` still counts against the one at `j`: same peer and id, recent, few let through since. */
  ghost predicate HoldsOff(cfg: Config, polled: seq<Polled>, i: int, j: int)
    requires j < |polled|
  {
    && 0 <= i < j
    && TakenFrom(polled[j].env.from, polled[i])
    && polled[i].env.correlationId == polled[j].env.correlationId
    && polled[j].at - polled[i].at <= cfg.window
    && |Taken(polled[i + 1..j], polled[j].env.from)| < cfg.maxEntries
  }

  /** Where an envelope let through sits among those of its peer. */
  lemma TakenAt(polled: seq<Polled>, i: nat, peer: string)
    requires i < |polled| && TakenFrom(peer, polled[i])
    ensures var before := Taken(polled[..i], peer);
            var after := Taken(polled[i + 1..], peer);
            Taken(polled, peer) == before + [polled[i]] + after
  {
    hide Taken;
    assert polled == polled[..i] + ([polled[i]] + polled[i + 1..]);
    TakenAppend(polled[..i], [polled[i]] + polled[i + 1..], peer);
    TakenAppend([polled[i]], polled[i + 1..], peer);
    TakenOne(polled[i], peer);
  }

  lemma {:induction false} TakenFound(polled: seq<Polled>, k: nat, peer: string) returns (i: nat)
    requires k < |Taken(polled, peer)|
    ensures i < |polled| && polled[i] == Taken(polled, peer)[k] && TakenFrom(peer, polled[i])
    ensures |Taken(polled[i + 1..], peer)| == |Taken(polled, peer)| - k - 1
  {
    hide Taken;
    if polled == [] {
      i := 0;
      assert |Taken([], peer)| == 0 by { TakenNothing(peer); }
    } else {
      var rest := polled[1..];
      assert polled == [polled[0]] + rest;
      TakenAppend([polled[0]], rest, peer);
      TakenOne(polled[0], peer);
      if TakenFrom(peer, polled[0]) && k == 0 {
        i := 0;
      } else {
        var j := TakenFound(rest, if TakenFrom(peer, polled[0]) then k - 1 else k, peer);
        i := j + 1;
        assert polled[i + 1..] == rest[j + 1..];
      }
    }
  }

  lemma TakenNothing(peer: string)
    ensures Taken([], peer) == []
  {
  }

  lemma {:induction false} CallsInOrder(polled: seq<Polled>, peer: string)
    requires PolledInOrder(polled)
    ensures var calls := CallsOf(GuardCalls(polled), peer);
            InTimeOrder(calls) && forall c :: c in calls ==> polled != [] && c.at <= polled[|polled| - 1].at
  {
    hide GuardCalls, CallsOf;
    if polled == [] {
      assert CallsOf(GuardCalls([]), peer) == [] by { NoCalls(peer); }
    } else {
      var n := |polled| - 1;
      var front := polled[..n];
      assert polled == front + [polled[n]];
      CallsInOrder(front, peer);
      CallsOfSnoc(front, polled[n], peer);
      var calls := CallsOf(GuardCalls(front), peer);
      forall i | 0 <= i < |calls| ensures calls[i].at <= polled[n].at {
        assert calls[i] in calls && front[n - 1].at <= polled[n].at;
      }
    }
  }

  lemma NoCalls(peer: string)
    ensures CallsOf(GuardCalls([]), peer) == []
  {
  }

  /**
   Exactly which polled envelopes are replays, over every run in time order: one is refused just when
   an earlier envelope of the same peer with the same correlation id was let through, not longer ago
   than the window, and fewer than `maxEntries` others of that peer were let through in between.
   */
  lemma ReplayedExactly(cfg: Config, events: seq<Event>, j: nat)
    requires cfg.maxInbox >= 1
    requires var polled := RunFrom(cfg, START, events).polled; PolledInOrder(polled) && j < |polled|
    ensures var polled := RunFrom(cfg, START, events).polled;
            polled[j].outcome == Replayed <==> exists i :: HoldsOff(cfg, polled, i, j)
  {
    hide RunFrom, HoldsOff, RunGuard, GuardCalls, CallsOf, Replay, Taken, Accepts, EnqueuedItems, Items, Blocks;
    EveryRunConserves(cfg, events);
    var polled := RunFrom(cfg, START, events).polled;
    var front := polled[..j];
    JudgedPrefix(cfg, polled, j);
    assert polled[j].outcome == Replayed <==> RefusedAt(cfg, polled, j);
    GuardHistory(cfg, polled, j);
    var accepted := Map(SeenOf, Taken(front, polled[j].env.from));
    if i :| Blocks(accepted, i, SeenOf(polled[j]), cfg.window, cfg.maxEntries) {
      var k := BlockedByEarlier(cfg, polled, j, i);
    }
    if i :| HoldsOff(cfg, polled, i, j) {
      EarlierBlocks(cfg, polled, j, i);
    }
  }

  lemma JudgedPrefix(cfg: Config, polled: seq<Polled>, j: nat)
    requires Judged(cfg, polled) && j <= |polled|
    ensures Judged(cfg, polled[..j])
  {
    hide Accepts, RunGuard, GuardCalls, QueueOf;
    var front := polled[..j];
    forall i | 0 <= i < j
      ensures front[i].outcome == Replayed <==> RefusedAt(cfg, front, i)
    {
      assert front[..i] == polled[..i];
      assert polled[i].outcome == Replayed <==> RefusedAt(cfg, polled, i);
    }
  }

  /** The guard's verdict on the envelope at `j`, in terms of what was let through before. */
  lemma GuardHistory(cfg: Config, polled: seq<Polled>, j: nat)
    requires j < |polled| && PolledInOrder(polled) && Judged(cfg, polled[..j])
    ensures RefusedAt(cfg, polled, j) <==>
              exists i :: Blocks(Map(SeenOf, Taken(polled[..j], polled[j].env.from)), i, SeenOf(polled[j]),
                                 cfg.window, cfg.maxEntries)
  {
    hide RunGuard, GuardCalls, CallsOf, Replay, Taken, Accepts, Blocks;
    var front := polled[..j];
    var peer := polled[j].env.from;
    AcceptedIsTaken(cfg, front, peer);
    PeersAreIndependent(GuardCalls(front), cfg.window, cfg.maxEntries, peer);
    var calls := CallsOf(GuardCalls(front), peer);
    CallsInOrder(front, peer);
    assert InTimeOrder(calls + [SeenOf(polled[j])]) by {
      forall i | 0 <= i < |calls| ensures calls[i].at <= polled[j].at {
        assert calls[i] in calls && front != [] && front[j - 1] == polled[j - 1];
      }
    }
    RefusedExactly(calls, SeenOf(polled[j]), cfg.window, cfg.maxEntries);
  }

  lemma BlockedByEarlier(cfg: Config, polled: seq<Polled>, j: nat, k: int) returns (i: nat)
    requires j < |polled|
    requires Blocks(Map(SeenOf, Taken(polled[..j], polled[j].env.from)), k, SeenOf(polled[j]), cfg.window, cfg.maxEntries)
    ensures HoldsOff(cfg, polled, i, j)
  {
    hide Taken;
    var front := polled[..j];
    i := TakenFound(front, k, polled[j].env.from);
    assert front[i + 1..] == polled[i + 1..j];
  }

  lemma EarlierBlocks(cfg: Config, polled: seq<Polled>, j: nat, i: int)
    requires j < |polled| && HoldsOff(cfg, polled, i, j)
    ensures exists k :: Blocks(Map(SeenOf, Taken(polled[..j], polled[j].env.from)), k, SeenOf(polled[j]),
                               cfg.window, cfg.maxEntries)
  {
    hide Taken;
    var front := polled[..j];
    var peer := polled[j].env.from;
    assert front[i] == polled[i] && front[i + 1..] == polled[i + 1..j] && front[..i] == polled[..i];
    TakenAt(front, i, peer);
    assert Blocks(Map(SeenOf, Taken(front, peer)), |Taken(front[..i], peer)|, SeenOf(polled[j]), cfg.window, cfg.maxEntries);
  }

  /**
   So a correlation id of one peer is enqueued twice only after the window has passed, or after at
   least `maxEntries` other envelopes of that peer were let through in between.
   */
  lemma EnqueuedTwice(cfg: Config, events: seq<Event>, i: nat, j: nat)
    requires cfg.maxInbox >= 1
    requires var polled := RunFrom(cfg, START, events).polled;
             && PolledInOrder(polled) && i < j < |polled|
             && polled[i].outcome == Enqueued && polled[j].outcome == Enqueued
             && polled[i].env.from == polled[j].env.from
             && polled[i].env.correlationId == polled[j].env.correlationId
    ensures var polled := RunFrom(cfg, START, events).polled;
            polled[j].at - polled[i].at > cfg.window
            || |Taken(polled[i + 1..j], polled[j].env.from)| >= cfg.maxEntries
  {
    hide RunFrom, Taken;
    ReplayedExactly(cfg, events, j);
    assert !HoldsOff(cfg, RunFrom(cfg, START, events).polled, i, j);
  }

  // ---------------------------------------------------------------- which batches get through

  /**
   What becomes of every envelope, over every run in time order: those that an earlier one holds off are
   refused, and of the others, those that do not decode, are no batches, are for no world subscribed to,
   or may not come from their peer, are dropped as such; all others are enqueued.
   */
  lemma OutcomesExactly(cfg: Config, events: seq<Event>, j: nat)
    requires cfg.maxInbox >= 1
    requires var polled := RunFrom(cfg, START, events).polled; PolledInOrder(polled) && j < |polled|
    ensures var polled := RunFrom(cfg, START, events).polled;
            if exists i :: HoldsOff(cfg, polled, i, j) then polled[j].outcome == Replayed
            else polled[j].outcome != Replayed && Checked(cfg, polled[j].env, polled[j].outcome)
  {
    hide RunFrom, HoldsOff, Checked, RunGuard, GuardCalls, Taken, Accepts, EnqueuedItems, Items;
    EveryRunConserves(cfg, events);
    ReplayedExactly(cfg, events, j);
    var polled := RunFrom(cfg, START, events).polled;
    assert polled[j] in polled;
  }

  /**
   So a polled batch is enqueued exactly when no earlier envelope holds it off, some pattern takes its
   world, and its peer may send it; and then it has left the inbox, delivered or dropped, or is in it.
   */
  lemma EnqueuedExactly(cfg: Config, events: seq<Event>, j: nat)
    requires cfg.maxInbox >= 1
    requires var polled := RunFrom(cfg, START, events).polled; PolledInOrder(polled) && j < |polled|
    ensures var h := RunFrom(cfg, START, events);
            var env := h.polled[j].env;
            h.polled[j].outcome == Enqueued <==>
              && (forall i :: !HoldsOff(cfg, h.polled, i, j))
              && exists b, p :: cfg.decode(env.payload) == Some(Batch(b)) && p in cfg.patterns && Takes(p, b.world)
                                && cfg.canReceive(b.world, env.from)
    ensures var h := RunFrom(cfg, START, events);
            h.polled[j].outcome == Enqueued ==>
              var k := |EnqueuedItems(cfg, h.polled[..j])|;
              var all := Items(h.departed) + h.state.incoming;
              && k < |all| && all[k].0 == h.polled[j].env.from
              && cfg.decode(h.polled[j].env.payload) == Some(Batch(all[k].1))
  {
    hide RunFrom, HoldsOff, Takes, RunGuard, GuardCalls, Taken, Accepts, EnqueuedItems, Items, Judged;
    OutcomesExactly(cfg, events, j);
    EveryRunConserves(cfg, events);
    var h := RunFrom(cfg, START, events);
    assert h.polled[j] in h.polled;
    if h.polled[j].outcome == Enqueued { EnqueuedAt(cfg, h.polled, j); }
  }

  /** Where the item of an enqueued envelope sits among all that were. */
  lemma {:induction false} EnqueuedAt(cfg: Config, polled: seq<Polled>, j: nat)
    requires j < |polled| && polled[j].outcome == Enqueued
    requires forall p :: p in polled && p.outcome == Enqueued ==> Passed(cfg, p.env)
    ensures Passed(cfg, polled[j].env)
    ensures var k := |EnqueuedItems(cfg, polled[..j])|;
            k < |EnqueuedItems(cfg, polled)| && EnqueuedItems(cfg, polled)[k] == ItemOf(cfg, polled[j].env)
  {
    hide EnqueuedItems, Subscribed;
    var n := |polled| - 1;
    var front, last := polled[..n], polled[n];
    assert polled == front + [last] && last in polled && polled[j] in polled;
    EnqueuedSnoc(cfg, front, last);
    if j < n { assert front[..j] == polled[..j]; EnqueuedAt(cfg, front, j); } else { assert polled[..j] == front; }
  }

  /** A batch is dropped only for want of room: an enqueue fills the inbox up to its bound and no less. */
  lemma EnqueueFills(cfg: Config, events: seq<Event>, now: int)
    requires cfg.maxInbox >= 1
    requires var h := RunFrom(cfg, START, events);
             h.rx != [] && OutcomeOf(cfg, h.state, h.rx[|h.rx| - 1], now) == Enqueued
    ensures var st, st' := RunFrom(cfg, START, events).state, RunFrom(cfg, START, events + [PollOne(now)]).state;
            && |st'.incoming| == (if |st.incoming| < cfg.maxInbox then |st.incoming| + 1 else cfg.maxInbox)
            && st'.droppedInbox == st.droppedInbox + (if |st.incoming| < cfg.maxInbox then 0 else 1)
  {
    hide Accepts, AfterCall, RunGuard, Subscribed, Items, Lost, EnqueuedItems, Refusals, GuardCalls, PolledEnvelopes;
    EveryRunConserves(cfg, events);
    RunSnoc(cfg, START, events, PollOne(now));
  }

  lemma {:induction false} RunSnoc(cfg: Config, h: Trace, events: seq<Event>, e: Event)
    ensures RunFrom(cfg, h, events + [e]) == Advance(cfg, RunFrom(cfg, h, events), e)
    decreases |events|
  {
    hide Advance;
    if events == [] {
      assert ([] + [e])[1..] == [];
    } else {
      assert (events + [e])[1..] == events[1..] + [e];
      RunSnoc(cfg, Advance(cfg, h, events[0]), events[1..], e);
    }
  }

  // ---------------------------------------------------------------- one poll of the whole buffer

  function Polls(clock: seq<int>): (r: seq<Event>)
    ensures |r| == |clock|
  {
    if clock == [] then [] else [PollOne(clock[0])] + Polls(clock[1..])
  }

  lemma RunPolls(cfg: Config, h: Trace, clock: seq<int>)
    requires clock != []
    ensures RunFrom(cfg, h, Polls(clock)) == RunFrom(cfg, Advance(cfg, h, PollOne(clock[0])), Polls(clock[1..]))
  {
    assert Polls(clock)[0] == PollOne(clock[0]) && Polls(clock)[1..] == Polls(clock[1..]);
  }

  lemma NoPolls(cfg: Config, h: Trace)
    ensures RunFrom(cfg, h, Polls([])) == h
  {
  }

  predicate AllDecoded(t: seq<Polled>) {
    forall i :: 0 <= i < |t| ==> t[i].outcome != Undecodable
  }

  lemma AllDecodedCons(p: Polled, t: seq<Polled>)
    ensures AllDecoded([p] + t) <==> p.outcome != Undecodable && AllDecoded(t)
  {
    assert ([p] + t)[0] == p;
    assert forall i :: 0 <= i < |t| ==> ([p] + t)[i + 1] == t[i];
  }

  /** What one poll does, envelope by envelope. */
  function DrainTrace(cfg: Config, st: State, rx: seq<Envelope>, clock: seq<int>): (r: seq<Polled>)
    requires |clock| >= |rx|
    ensures |r| <= |rx|
    decreases |rx|
  {
    if rx == [] then []
    else
      var env := rx[|rx| - 1];
      var p := Polled(env, clock[0], OutcomeOf(cfg, st, env, clock[0]));
      if p.outcome == Undecodable then [p]
      else [p] + DrainTrace(cfg, Handle(cfg, st, env, clock[0]), rx[..|rx| - 1], clock[1..])
  }

  /** A poll takes envelopes newest first, and all of them exactly when none is undecodable. */
  lemma {:induction false} DrainOrder(cfg: Config, st: State, rx: seq<Envelope>, clock: seq<int>)
    requires |clock| >= |rx|
    ensures var t := DrainTrace(cfg, st, rx, clock);
            var d := Drain(cfg, st, rx, clock);
            && (forall i :: 0 <= i < |t| ==> t[i].env == rx[|rx| - 1 - i])
            && d.rx == rx[..|rx| - |t|]
            && (d.clean <==> AllDecoded(t))
            && (d.clean ==> d.rx == [])
    decreases |rx|
  {
    hide OutcomeOf, Handle, AllDecoded;
    if rx == [] {
      NothingUndecoded();
    } else {
      var env := rx[|rx| - 1];
      var p := Polled(env, clock[0], OutcomeOf(cfg, st, env, clock[0]));
      if p.outcome == Undecodable {
        AllDecodedCons(p, []);
        assert [p] + [] == [p];
      } else {
        var t := DrainTrace(cfg, Handle(cfg, st, env, clock[0]), rx[..|rx| - 1], clock[1..]);
        DrainOrder(cfg, Handle(cfg, st, env, clock[0]), rx[..|rx| - 1], clock[1..]);
        AllDecodedCons(p, t);
      }
    }
  }

  lemma NothingUndecoded()
    ensures AllDecoded([])
  {
  }

  /** A whole poll is a run of single steps, so what holds of every run holds across every poll. */
  lemma {:induction false} DrainIsARun(cfg: Config, h: Trace, clock: seq<int>)
    requires |clock| >= |h.rx|
    ensures var t := DrainTrace(cfg, h.state, h.rx, clock);
            var h' := RunFrom(cfg, h, Polls(clock[..|t|]));
            var d := Drain(cfg, h.state, h.rx, clock);
            h'.state == d.state && h'.rx == d.rx && h'.polled == h.polled + t
    decreases |h.rx|
  {
    hide OutcomeOf, Handle, Full, RunFrom, Polls;
    var t := DrainTrace(cfg, h.state, h.rx, clock);
    if h.rx == [] {
      NoPolls(cfg, h);
      assert clock[..0] == [] && h.polled + [] == h.polled;
    } else {
      var env := h.rx[|h.rx| - 1];
      var h1 := Advance(cfg, h, PollOne(clock[0]));
      var p := Polled(env, clock[0], OutcomeOf(cfg, h.state, env, clock[0]));
      RunPolls(cfg, h, clock[..|t|]);
      if p.outcome == Undecodable {
        assert clock[..1][1..] == [];
        NoPolls(cfg, h1);
      } else {
        var rest := DrainTrace(cfg, h1.state, h1.rx, clock[1..]);
        DrainIsARun(cfg, h1, clock[1..]);
        assert clock[..|t|][1..] == clock[1..][..|rest|];
        assert h.polled + ([p] + rest) == h.polled + [p] + rest;
      }
    }
  }

  // ---------------------------------------------------------------- the object

  /** The transport's buffer and the replicator, with the run so far as a ghost. */
  class Replicator {
    const cfg: Config
    const replay: ReplayGuard
    var rx: seq<Envelope>
    var incoming: seq<Item>
    var droppedInbox: nat
    var droppedReplay: nat
    ghost var history: Trace

    ghost predicate Wired()
      reads this
    {
      cfg.maxInbox >= 1 && replay.window == cfg.window && replay.maxEntries == cfg.maxEntries
    }

    /** The run so far led here, and conserves. */
    ghost predicate Valid()
      reads this, replay
    {
      Wired() && history.state == Current() && history.rx == rx && Conserved(cfg, history)
    }

    function Current(): State
      reads this, replay
    {
      State(replay.inner, incoming, droppedInbox, droppedReplay)
    }

    constructor (patterns: seq<string>, maxInbox: nat, window: nat, maxEntries: nat,
                 canReceive: (WorldKey, string) -> bool, decode: string -> Option<Message>)
      ensures Valid() && history == START
      ensures cfg == Config(patterns, if maxInbox == 0 then 1 else maxInbox, window, maxEntries, canReceive, decode)
      ensures fresh(replay)
    {
      cfg := Config(patterns, if maxInbox == 0 then 1 else maxInbox, window, maxEntries, canReceive, decode);
      replay := new ReplayGuard(window, maxEntries);
      rx, incoming, droppedInbox, droppedReplay := [], [], 0, 0;
      history := START;
      new;
      StartConserves(cfg);
    }

    /** The subscription handler of the transport. */
    method Receive(env: Envelope)
      requires Valid()
      modifies this`rx, this`history
      ensures Valid() && history == Advance(cfg, old(history), Arrive(env))
    {
      hide Conserved;
      AdvanceKeeps(cfg, history, Arrive(env));
      rx := rx + [env];
      history := Advance(cfg, history, Arrive(env));
    }

    method Poll() returns (env: Option<Envelope>)
      modifies this`rx
      ensures old(rx) == [] ==> env == None && rx == []
      ensures old(rx) != [] ==> env == Some(old(rx)[|old(rx)| - 1]) && rx == old(rx)[..|old(rx)| - 1]
    {
      if rx == [] { return None; }
      env := Some(rx[|rx| - 1]);
      rx := rx[..|rx| - 1];
    }

    /** The loop body of the poll: what becomes of one envelope. */
    method HandleEnvelope(env: Envelope, now: int) returns (decoded: bool)
      requires Wired()
      modifies this`incoming, this`droppedInbox, this`droppedReplay, replay
      ensures Wired() && Current() == Handle(cfg, old(Current()), env, now)
      ensures decoded <==> OutcomeOf(cfg, old(Current()), env, now) != Undecodable
    {
      hide Accepts, AfterCall, Subscribed;
      var accepted := replay.ShouldAccept(env.from, env.correlationId, now);
      if !accepted {
        droppedReplay := droppedReplay + 1;
        return true;
      }
      var msg := cfg.decode(env.payload);
      if msg.None? { return false; }
      if msg.value.Batch? {
        var world := msg.value.batch.world;
        if !Subscribed(cfg, world) { return true; }
        if !cfg.canReceive(world, env.from) { return true; }
        if |incoming| >= cfg.maxInbox {
          incoming := incoming[1..];
          droppedInbox := droppedInbox + 1;
        }
        incoming := incoming + [(env.from, msg.value.batch)];
      }
      return true;
    }

    /** `clock` holds the reading taken for each envelope in turn. */
    method PollInbox(clock: seq<int>) returns (ok: bool)
      requires Valid() && |clock| >= |rx|
      modifies this, replay
      ensures Valid()
      ensures Drained(Current(), rx, ok) == Drain(cfg, old(Current()), old(rx), clock)
      ensures var t := DrainTrace(cfg, old(Current()), old(rx), clock);
              history == RunFrom(cfg, old(history), Polls(clock[..|t|])) && history.polled == old(history).polled + t
    {
      hide OutcomeOf, Handle, Conserved;
      var i := 0;
      ok := true;
      assert clock[0..] == clock;
      ghost var start := history;
      while rx != []
        invariant Wired() && 0 <= i <= |clock| && |clock| - i >= |rx| && history == start
        invariant Drain(cfg, Current(), rx, clock[i..]) == Drain(cfg, old(Current()), old(rx), clock)
        invariant ok
        decreases |rx|
      {
        assert clock[i..][0] == clock[i] && clock[i..][1..] == clock[i + 1..];
        var env := Poll();
        var decoded := HandleEnvelope(env.value, clock[i]);
        i := i + 1;
        if !decoded { ok := false; break; }
      }
      ghost var polls := Polls(clock[..|DrainTrace(cfg, start.state, start.rx, clock)|]);
      DrainIsARun(cfg, start, clock);
      RunKeeps(cfg, start, polls);
      history := RunFrom(cfg, start, polls);
    }

    method PollAtomBatch() returns (item: Option<Item>)
      requires Valid()
      modifies this`incoming, this`history
      ensures Valid() && history == Advance(cfg, old(history), Take)
      ensures old(incoming) == [] ==> item == None && incoming == []
      ensures old(incoming) != [] ==> item == Some(old(incoming)[0]) && incoming == old(incoming)[1..]
    {
      hide Conserved;
      AdvanceKeeps(cfg, history, Take);
      history := Advance(cfg, history, Take);
      if incoming == [] { return None; }
      item := Some(incoming[0]);
      incoming := incoming[1..];
    }
  }
}
