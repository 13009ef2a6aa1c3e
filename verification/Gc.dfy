/**
 Garbage collection over the per-world logs. A world's atoms go when they are expired or below the
 policy's importance, unless they are policy or world metadata atoms or some stored atom of the
 same world links to them.
 */
module Gc {
  import opened Prelude
  import opened Text
  import opened Atoms
  import opened Sorting
  import opened Policy

  const DAY_NANOS: int := 86_400_000_000_000

  /** `as i64`: day counts from 2^63 on wrap to negative ones. */
  function AsI64(n: nat): int {
    var r := n % U64_LIMIT;
    if r < 0x8000_0000_0000_0000 then r else r - U64_LIMIT
  }

  predicate IsPolicyAtom(a: Atom) {
    exists i :: 0 <= i < |a.labels| && (POLICY <= a.labels[i] || a.labels[i] == "world_meta")
  }

  predicate IsWorldMeta(a: Atom) {
    exists i :: 0 <= i < |a.labels| && "world_meta" <= a.labels[i]
  }

  predicate LinksTo(a: Atom, id: AtomId) {
    exists i :: 0 <= i < |a.links| && a.links[i].target == id
  }

  predicate Referenced(atoms: seq<Atom>, id: AtomId) {
    exists i :: 0 <= i < |atoms| && LinksTo(atoms[i], id)
  }

  predicate Protected(atoms: seq<Atom>, a: Atom) {
    IsPolicyAtom(a) || Referenced(atoms, a.id) || IsWorldMeta(a)
  }

  /** An unreadable timestamp counts as the start of 1970. */
  function TimeOf(ps: Parsers, a: Atom): int {
    if ps.time(a.timestamp).Some? then ps.time(a.timestamp).value else 0
  }

  /** The latest readable timestamp of the world, or the clock. */
  function LatestTime(ps: Parsers, atoms: seq<Atom>, clock: int): int {
    match LatestOf(ps, atoms)
    case None => clock
    case Some(t) => t
  }

  function LatestOf(ps: Parsers, atoms: seq<Atom>): Option<int> {
    if atoms == [] then None
    else
      var rest := LatestOf(ps, atoms[1..]);
      match ps.time(atoms[0].timestamp)
      case None => rest
      case Some(t) => if rest.Some? && rest.value > t then rest else Some(t)
  }

  predicate Expired(ps: Parsers, p: Policy, now: int, a: Atom) {
    && p.retentionDays.Some? && p.retentionDays.value > 0
    && ps.time(a.timestamp).Some?
    && now - ps.time(a.timestamp).value > AsI64(p.retentionDays.value) * DAY_NANOS
  }

  /** `Duration::days` multiplies in 64 bits and panics when the seconds do not fit. */
  predicate Overflows(days: nat) {
    var seconds := AsI64(days) * 86_400;
    seconds < -0x8000_0000_0000_0000 || seconds >= 0x8000_0000_0000_0000
  }

  const MAX_DAYS: nat := 106_751_991_167_300

  /** Exactly which day counts overflow. */
  lemma OverflowRange(days: nat)
    requires days < U64_LIMIT
    ensures Overflows(days) <==> MAX_DAYS < days < U64_LIMIT - MAX_DAYS
  {
    assert days % U64_LIMIT == days;
  }

  /** The turn of a world with these atoms and this policy panics: some age is compared with an overflow. */
  predicate Panics(ps: Parsers, p: Policy, atoms: seq<Atom>) {
    && p.retentionDays.Some? && p.retentionDays.value > 0 && Overflows(p.retentionDays.value)
    && exists i :: 0 <= i < |atoms| && !Protected(atoms, atoms[i]) && ps.time(atoms[i].timestamp).Some?
  }

  predicate PanicsIn(ps: Parsers, logs: Logs, w: WorldKey) {
    Panics(ps, ParsePolicy(ps, logs, w), LogOf(logs, w))
  }

  predicate LowImportance(p: Policy, a: Atom) {
    p.minImportance.Some? && a.importance < p.minImportance.value
  }

  /** Whether a collection of a world with these atoms and this policy deletes `a`. */
  predicate Doomed(ps: Parsers, p: Policy, atoms: seq<Atom>, now: int, a: Atom) {
    !Protected(atoms, a) && (Expired(ps, p, now, a) || LowImportance(p, a))
  }

  /** The survivors of one world. */
  function Survivors(ps: Parsers, logs: Logs, clock: int, w: WorldKey): seq<Atom> {
    var atoms := LogOf(logs, w);
    var p := ParsePolicy(ps, logs, w);
    var now := LatestTime(ps, atoms, clock);
    Keep((a: Atom) => !Doomed(ps, p, atoms, now, a), atoms)
  }

  /** The specification: every visited world keeps its survivors, judged by the store at the start. */
  function Collected(ps: Parsers, logs: Logs, clock: int, visit: set<WorldKey>): Logs {
    map w | w in logs :: if w in visit then Survivors(ps, logs, clock, w) else logs[w]
  }

  ghost predicate UniqueLogs(logs: Logs) {
    forall w :: w in logs ==> UniqueIds(logs[w])
  }

  class Collector {
    const ps: Parsers
    var logs: Logs

    constructor (ps: Parsers, logs: Logs)
      ensures this.ps == ps && this.logs == logs
    {
      this.ps, this.logs := ps, logs;
    }

    method DeleteAtoms(w: WorldKey, ids: seq<AtomId>) returns (removed: nat)
      modifies this`logs
      ensures logs == if w in old(logs) then old(logs)[w := Keep((a: Atom) => a.id !in ids, old(logs)[w])] else old(logs)
      ensures removed == |LogOf(old(logs), w)| - |LogOf(logs, w)|
    {
      if w !in logs { return 0; }
      var kept := Keep((a: Atom) => a.id !in ids, logs[w]);
      removed := |logs[w]| - |kept|;
      logs := logs[w := kept];
    }

    /** The policy of a world whose own atoms have been scanned: one pass over every policy label. */
    method ReadPolicy(w: WorldKey, atoms: seq<Atom>) returns (p: Policy)
      requires atoms == LogOf(logs, w)
      ensures p == ParsePolicy(ps, logs, w)
    {
      hide ApplyLabel, ApplyAtoms;
      var policyAtoms := Keep((a: Atom) => a.world == w, atoms) + LogOf(logs, POLICY + w);
      var tenant := TenantPolicyWorld(w);
      if tenant.Some? { policyAtoms := policyAtoms + LogOf(logs, tenant.value); }
      p := DEFAULT_POLICY;
      NoAtomsLeft(ps, p);
      assert policyAtoms == PolicyAtoms(logs, w) && policyAtoms[0..] == policyAtoms;
      for i := 0 to |policyAtoms|
        invariant ApplyAtoms(ps, p, policyAtoms[i..]) == ApplyAtoms(ps, DEFAULT_POLICY, policyAtoms)
      {
        AtomStep(ps, p, policyAtoms[i..]);
        assert policyAtoms[i..][1..] == policyAtoms[i + 1..];
        p := ReadLabels(p, policyAtoms[i].labels);
      }
      NoAtomsLeft(ps, p);
      if p.retentionMinDays.Some? {
        if p.retentionDays.None? || p.retentionDays.value < p.retentionMinDays.value {
          p := p.(retentionDays := p.retentionMinDays);
        }
      }
    }

    method ReadLabels(start: Policy, labels: seq<string>) returns (p: Policy)
      ensures p == ApplyLabels(ps, start, labels)
    {
      p := start;
      assert labels[0..] == labels;
      for i := 0 to |labels|
        invariant ApplyLabels(ps, p, labels[i..]) == ApplyLabels(ps, start, labels)
      {
        hide Strip, ParseDays;
        assert labels[i..][0] == labels[i] && labels[i..][1..] == labels[i + 1..];
        ghost var before := p;
        var days := ParseDays(Strip(labels[i], RETENTION));
        if days.Some? { p := p.(retentionDays := days); }
        var minDays := ParseDays(Strip(labels[i], RETENTION_MIN));
        if minDays.Some? { p := p.(retentionMinDays := minDays); }
        var fraction := Strip(labels[i], MIN_IMPORTANCE);
        if fraction.Some? {
          var importance := ps.fraction(fraction.value);
          if importance.Some? { p := p.(minImportance := importance); }
        }
        var allow := Strip(labels[i], ALLOW);
        if allow.Some? && allow.value != [] { p := p.(allow := p.allow + [allow.value]); }
        var deny := Strip(labels[i], DENY);
        if deny.Some? && deny.value != [] { p := p.(deny := p.deny + [deny.value]); }
        assert p == ApplyLabel(ps, before, labels[i]);
      }
    }

    /** The ids one world's pass collects, oldest first; none if the pass panics. */
    method DoomedIds(w: WorldKey, atoms: seq<Atom>, p: Policy, clock: int) returns (ids: Option<seq<AtomId>>)
      ensures ids.None? <==> Panics(ps, p, atoms)
      ensures ids.Some? ==>
                forall id :: id in ids.value <==>
                  exists a :: a in atoms && a.id == id && Doomed(ps, p, atoms, LatestTime(ps, atoms, clock), a)
    {
      hide Protected, Overflows, LatestTime, SortBy;
      var sorted := SortBy((a: Atom, b: Atom) => TimeOf(ps, a) <= TimeOf(ps, b), atoms);
      SameElements(sorted, atoms);
      var now := LatestTime(ps, atoms, clock);
      var chosen := [];
      for i := 0 to |sorted|
        invariant forall id :: id in chosen <==>
                    exists j :: 0 <= j < i && sorted[j].id == id && Doomed(ps, p, atoms, now, sorted[j])
        invariant forall j :: 0 <= j < i ==> !PanicsAt(ps, p, atoms, sorted[j])
      {
        hide Doomed;
        var a := sorted[i];
        var panics, doomed := Judge(a, atoms, p, now);
        if panics {
          PanicFound(ps, p, atoms, a);
          return None;
        }
        if doomed { chosen := chosen + [a.id]; }
      }
      NoPanicFound(ps, p, atoms, sorted);
      return Some(chosen);
    }

    /** The loop body of the pass, for one atom. */
    method Judge(a: Atom, atoms: seq<Atom>, p: Policy, now: int) returns (panics: bool, doomed: bool)
      ensures panics <==> PanicsAt(ps, p, atoms, a)
      ensures !panics ==> (doomed <==> Doomed(ps, p, atoms, now, a))
    {
      hide Overflows, AsI64;
      panics, doomed := false, false;
      if IsPolicyAtom(a) { return; }
      if Referenced(atoms, a.id) { return; }
      if IsWorldMeta(a) { return; }
      var expired := false;
      if p.retentionDays.Some? && p.retentionDays.value > 0 {
        var ts := ps.time(a.timestamp);
        if ts.Some? {
          if Overflows(p.retentionDays.value) { return true, false; }
          expired := now - ts.value > AsI64(p.retentionDays.value) * DAY_NANOS;
        }
      }
      var lowImportance := p.minImportance.Some? && a.importance < p.minImportance.value;
      doomed := expired || lowImportance;
    }

    /** One world's turn, after the worlds in `done` have had theirs; a panic leaves the store as it is. */
    method GcWorld(w: WorldKey, clock: int, ghost start: Logs, ghost done: set<WorldKey>) returns (removed: Option<nat>)
      requires UniqueLogs(start) && w !in done && logs == Collected(ps, start, clock, done)
      modifies this`logs
      ensures removed.None? <==> PanicsIn(ps, start, w)
      ensures removed.None? ==> logs == old(logs)
      ensures removed.Some? ==>
                && logs == Collected(ps, start, clock, done + {w})
                && |Evicted(ps, start, clock, done + {w})| == |Evicted(ps, start, clock, done)| + removed.value
    {
      hide Collected, Evicted, ParsePolicy, LatestTime, Doomed, Panics, Keep, UniqueLogs;
      var atoms := LogOf(logs, w);
      var p := ReadPolicy(w, atoms);
      CollectedKeepsPolicies(ps, start, clock, done, w);
      CollectedElsewhere(ps, start, clock, done, w);
      var ids := DoomedIds(w, atoms, p, clock);
      if ids.None? { return None; }
      CollectedOneMore(ps, start, clock, done, w, ids.value);
      EvictedOneMore(ps, start, clock, done, w);
      DeleteIsSurvival(ps, start, clock, w, ids.value);
      var count := 0;
      if ids.value != [] {
        count := DeleteAtoms(w, ids.value);
      } else {
        KeepAll((a: Atom) => a.id !in ids.value, atoms);
      }
      return Some(count);
    }

    /**
     A pass over the worlds to visit, in some order: it collects those before the first that panics. It
     goes through exactly when none of them panics, and then its result does not depend on the order.
     */
    method GcOnce(visit: set<WorldKey>, clock: int) returns (evicted: Option<nat>)
      requires UniqueLogs(logs)
      modifies this`logs
      ensures evicted.Some? <==> forall w :: w in visit ==> !PanicsIn(ps, old(logs), w)
      ensures evicted.Some? ==>
                && logs == Collected(ps, old(logs), clock, visit)
                && evicted.value == |Evicted(ps, old(logs), clock, visit)|
      ensures exists order :: IsOrder(order, visit) && logs == AfterPass(ps, old(logs), clock, order)
    {
      hide Collected, Evicted, UniqueLogs, PanicsIn, AfterPass;
      var count := 0;
      var worlds := visit;
      NothingCollected(ps, logs, clock);
      ghost var done: set<WorldKey> := {};
      ghost var order: seq<WorldKey> := [];
      while worlds != {}
        invariant done + worlds == visit && done !! worlds && IsOrder(order, done)
        invariant logs == Collected(ps, old(logs), clock, done)
        invariant count == |Evicted(ps, old(logs), clock, done)|
        invariant forall w :: w in done ==> !PanicsIn(ps, old(logs), w)
        decreases worlds
      {
        var w :| w in worlds;
        var removed := GcWorld(w, clock, old(logs), done);
        if removed.None? {
          assert w in visit && w !in done;
          PanicEndsPass(ps, old(logs), clock, order, done, w, worlds, visit);
          return None;
        }
        count := count + removed.value;
        OrderSnoc(order, done, w);
        worlds := worlds - {w};
        done := done + {w};
        order := order + [w];
      }
      assert done == visit;
      CompletePass(ps, old(logs), clock, order, visit);
      return Some(count);
    }
  }

  // ---------------------------------------------------------------- orders

  ghost predicate IsOrder(order: seq<WorldKey>, visit: set<WorldKey>) {
    Distinct(order) && forall w :: w in order <==> w in visit
  }

  /** The worlds that an order comes to before the first that panics. */
  function Reached(ps: Parsers, logs: Logs, order: seq<WorldKey>): seq<WorldKey> {
    if order == [] || PanicsIn(ps, logs, order[0]) then [] else [order[0]] + Reached(ps, logs, order[1..])
  }

  function AfterPass(ps: Parsers, logs: Logs, clock: int, order: seq<WorldKey>): Logs {
    Collected(ps, logs, clock, set w | w in Reached(ps, logs, order))
  }

  lemma {:induction false} ReachedUpTo(ps: Parsers, logs: Logs, x: seq<WorldKey>, y: seq<WorldKey>)
    requires forall w :: w in x ==> !PanicsIn(ps, logs, w)
    requires y != [] ==> PanicsIn(ps, logs, y[0])
    ensures Reached(ps, logs, x + y) == x
  {
    hide PanicsIn;
    if x == [] {
      assert x + y == y;
    } else {
      assert x[0] in x && forall w :: w in x[1..] ==> w in x;
      assert (x + y)[0] == x[0] && (x + y)[1..] == x[1..] + y;
      ReachedUpTo(ps, logs, x[1..], y);
    }
  }

  lemma {:induction false} ReachedQuiet(ps: Parsers, logs: Logs, order: seq<WorldKey>)
    ensures forall w :: w in Reached(ps, logs, order) ==> w in order && !PanicsIn(ps, logs, w)
  {
    hide PanicsIn;
    if order != [] { ReachedQuiet(ps, logs, order[1..]); }
  }

  lemma OrderSnoc(order: seq<WorldKey>, visit: set<WorldKey>, w: WorldKey)
    requires IsOrder(order, visit) && w !in visit
    ensures IsOrder(order + [w], visit + {w})
  {
  }

  lemma OrderCons(w: WorldKey, order: seq<WorldKey>, visit: set<WorldKey>)
    requires IsOrder(order, visit) && w !in visit
    ensures IsOrder([w] + order, visit + {w})
  {
  }

  lemma OrderConcat(x: seq<WorldKey>, xs: set<WorldKey>, y: seq<WorldKey>, ys: set<WorldKey>)
    requires IsOrder(x, xs) && IsOrder(y, ys) && xs !! ys
    ensures IsOrder(x + y, xs + ys)
  {
    forall i, j | 0 <= i < j < |x + y|
      ensures (x + y)[i] != (x + y)[j]
    {
      if i < |x| <= j { assert x[i] in x && y[j - |x|] in y; }
    }
  }

  lemma {:induction false} OrderExists(visit: set<WorldKey>) returns (order: seq<WorldKey>)
    ensures IsOrder(order, visit)
  {
    if visit == {} {
      order := [];
    } else {
      var w :| w in visit;
      var rest := OrderExists(visit - {w});
      OrderCons(w, rest, visit - {w});
      assert visit - {w} + {w} == visit;
      order := [w] + rest;
    }
  }

  lemma SetOfOrder(order: seq<WorldKey>, visit: set<WorldKey>)
    requires IsOrder(order, visit)
    ensures (set w | w in order) == visit
  {
  }

  /** A world that panics ends the pass with what was collected before it. */
  lemma PanicEndsPass(ps: Parsers, logs: Logs, clock: int, order: seq<WorldKey>, done: set<WorldKey>, w: WorldKey,
                      worlds: set<WorldKey>, visit: set<WorldKey>)
    requires IsOrder(order, done) && w in worlds && done + worlds == visit && done !! worlds
    requires PanicsIn(ps, logs, w) && forall v :: v in done ==> !PanicsIn(ps, logs, v)
    ensures exists whole :: IsOrder(whole, visit) && Collected(ps, logs, clock, done) == AfterPass(ps, logs, clock, whole)
  {
    hide PanicsIn, Collected;
    var rest := OrderExists(worlds - {w});
    OrderCons(w, rest, worlds - {w});
    assert worlds - {w} + {w} == worlds;
    OrderConcat(order, done, [w] + rest, worlds);
    ReachedUpTo(ps, logs, order, [w] + rest);
    SetOfOrder(order, done);
    assert IsOrder(order + ([w] + rest), visit);
  }

  lemma CompletePass(ps: Parsers, logs: Logs, clock: int, order: seq<WorldKey>, visit: set<WorldKey>)
    requires IsOrder(order, visit) && forall v :: v in visit ==> !PanicsIn(ps, logs, v)
    ensures AfterPass(ps, logs, clock, order) == Collected(ps, logs, clock, visit)
  {
    hide PanicsIn, Collected;
    ReachedUpTo(ps, logs, order, []);
    assert order + [] == order;
    SetOfOrder(order, visit);
  }

  /** Collecting the world would take at least one atom. */
  predicate Loses(ps: Parsers, logs: Logs, clock: int, w: WorldKey) {
    Survivors(ps, logs, clock, w) != LogOf(logs, w)
  }

  ghost predicate OrdersAgree(ps: Parsers, logs: Logs, clock: int, visit: set<WorldKey>) {
    forall x, y :: IsOrder(x, visit) && IsOrder(y, visit) ==>
      AfterPass(ps, logs, clock, x) == AfterPass(ps, logs, clock, y)
  }

  /**
   Exactly when the order of worlds does not matter: when no world to visit panics, or none of those
   that do not panic has an atom to lose.
   */
  lemma OrderMatters(ps: Parsers, logs: Logs, clock: int, visit: set<WorldKey>)
    ensures OrdersAgree(ps, logs, clock, visit) <==>
              (forall w :: w in visit ==> !PanicsIn(ps, logs, w))
              || (forall w :: w in visit && !PanicsIn(ps, logs, w) ==> !Loses(ps, logs, clock, w))
  {
    hide PanicsIn, Collected, Survivors, AfterPass, IsOrder;
    if forall w :: w in visit ==> !PanicsIn(ps, logs, w) {
      forall x | IsOrder(x, visit)
        ensures AfterPass(ps, logs, clock, x) == Collected(ps, logs, clock, visit)
      {
        CompletePass(ps, logs, clock, x, visit);
      }
    } else if forall w :: w in visit && !PanicsIn(ps, logs, w) ==> !Loses(ps, logs, clock, w) {
      forall x | IsOrder(x, visit)
        ensures AfterPass(ps, logs, clock, x) == logs
      {
        NothingLost(ps, logs, clock, x, visit);
      }
    } else {
      var p :| p in visit && PanicsIn(ps, logs, p);
      var l :| l in visit && !PanicsIn(ps, logs, l) && Loses(ps, logs, clock, l);
      TwoOrders(ps, logs, clock, visit, p, l);
    }
  }

  lemma NothingLost(ps: Parsers, logs: Logs, clock: int, order: seq<WorldKey>, visit: set<WorldKey>)
    requires IsOrder(order, visit)
    requires forall w :: w in visit && !PanicsIn(ps, logs, w) ==> !Loses(ps, logs, clock, w)
    ensures AfterPass(ps, logs, clock, order) == logs
  {
    hide PanicsIn, Survivors;
    ReachedQuiet(ps, logs, order);
  }

  /** One order starts with the world that panics, the other with one that loses an atom. */
  lemma TwoOrders(ps: Parsers, logs: Logs, clock: int, visit: set<WorldKey>, p: WorldKey, l: WorldKey)
    requires p in visit && PanicsIn(ps, logs, p)
    requires l in visit && !PanicsIn(ps, logs, l) && Loses(ps, logs, clock, l)
    ensures !OrdersAgree(ps, logs, clock, visit)
  {
    hide PanicsIn, Survivors, IsOrder, AfterPass, Reached;
    var rest := EitherFirst(visit, p, l);
    var x, y := [p] + ([l] + rest), [l] + ([p] + rest);
    ReachedUpTo(ps, logs, [], x);
    assert [] + x == x;
    ReachedUpTo(ps, logs, [l], [p] + rest);
    assert [l] + ([p] + rest) == y;
    FateOf(ps, logs, clock, x, l);
    FateOf(ps, logs, clock, y, l);
  }

  lemma EitherFirst(visit: set<WorldKey>, p: WorldKey, l: WorldKey) returns (rest: seq<WorldKey>)
    requires p in visit && l in visit && p != l
    ensures IsOrder([p] + ([l] + rest), visit) && IsOrder([l] + ([p] + rest), visit)
  {
    hide IsOrder;
    var others := visit - {p, l};
    rest := OrderExists(others);
    OrderCons(l, rest, others);
    OrderCons(p, [l] + rest, others + {l});
    OrderCons(p, rest, others);
    OrderCons(l, [p] + rest, others + {p});
    assert others + {l} + {p} == visit && others + {p} + {l} == visit;
  }

  /** A world that loses an atom shows whether an order comes to it before a panic. */
  lemma FateOf(ps: Parsers, logs: Logs, clock: int, order: seq<WorldKey>, w: WorldKey)
    requires Loses(ps, logs, clock, w)
    ensures LogOf(AfterPass(ps, logs, clock, order), w) == LogOf(logs, w) <==> w !in Reached(ps, logs, order)
  {
    hide Survivors, Reached;
    LosesUnless(ps, logs, clock, w);
  }

  lemma LosesUnless(ps: Parsers, logs: Logs, clock: int, w: WorldKey)
    requires Loses(ps, logs, clock, w)
    ensures w in logs
  {
  }

  /** The pass panics when it comes to this atom. */
  predicate PanicsAt(ps: Parsers, p: Policy, atoms: seq<Atom>, a: Atom) {
    && !Protected(atoms, a) && ps.time(a.timestamp).Some?
    && p.retentionDays.Some? && p.retentionDays.value > 0 && Overflows(p.retentionDays.value)
  }

  lemma PanicFound(ps: Parsers, p: Policy, atoms: seq<Atom>, a: Atom)
    requires a in atoms && PanicsAt(ps, p, atoms, a)
    ensures Panics(ps, p, atoms)
  {
    hide Protected, Overflows;
    var i :| 0 <= i < |atoms| && atoms[i] == a;
  }

  lemma NoPanicFound(ps: Parsers, p: Policy, atoms: seq<Atom>, sorted: seq<Atom>)
    requires forall a :: a in atoms ==> a in sorted
    requires forall j :: 0 <= j < |sorted| ==> !PanicsAt(ps, p, atoms, sorted[j])
    ensures !Panics(ps, p, atoms)
  {
    hide Protected, Overflows;
    forall i | 0 <= i < |atoms|
      ensures !PanicsAt(ps, p, atoms, atoms[i])
    {
      assert atoms[i] in sorted;
      var j :| 0 <= j < |sorted| && sorted[j] == atoms[i];
    }
  }

  lemma AtomStep(ps: Parsers, p: Policy, atoms: seq<Atom>)
    requires atoms != []
    ensures ApplyAtoms(ps, p, atoms) == ApplyAtoms(ps, ApplyLabels(ps, p, atoms[0].labels), atoms[1..])
  {
  }

  lemma NoAtomsLeft(ps: Parsers, p: Policy)
    ensures ApplyAtoms(ps, p, []) == p
  {
  }

  /** The atoms a collection takes away, with their worlds. */
  ghost function Evicted(ps: Parsers, logs: Logs, clock: int, visit: set<WorldKey>): set<(WorldKey, Atom)> {
    set w, a | w in visit && w in logs && a in logs[w] && a !in Survivors(ps, logs, clock, w) :: (w, a)
  }

  // ---------------------------------------------------------------- one pass, in any order

  lemma PolicyLabelProtects(ps: Parsers, p: Policy, atoms: seq<Atom>, now: int, a: Atom)
    requires HasPolicyLabel(a)
    ensures !Doomed(ps, p, atoms, now, a)
  {
    var i :| 0 <= i < |a.labels| && POLICY <= a.labels[i];
    assert IsPolicyAtom(a);
  }

  /** A collection keeps every policy-labelled atom, in order. */
  lemma CollectedKeepsPolicyAtoms(ps: Parsers, logs: Logs, clock: int, visit: set<WorldKey>)
    ensures SamePolicyAtoms(logs, Collected(ps, logs, clock, visit))
  {
    hide HasPolicyLabel, Doomed, Keep;
    var logs' := Collected(ps, logs, clock, visit);
    forall w
      ensures Keep(HasPolicyLabel, LogOf(logs', w)) == Keep(HasPolicyLabel, LogOf(logs, w))
    {
      if w in logs && w in visit {
        var atoms := LogOf(logs, w);
        var p := ParsePolicy(ps, logs, w);
        var now := LatestTime(ps, atoms, clock);
        forall a | a in atoms && HasPolicyLabel(a)
          ensures !Doomed(ps, p, atoms, now, a)
        {
          PolicyLabelProtects(ps, p, atoms, now, a);
        }
        KeepTwice(HasPolicyLabel, (a: Atom) => !Doomed(ps, p, atoms, now, a), HasPolicyLabel, atoms);
      }
    }
  }

  /** No world's policy changes, however much of the pass has been done. */
  lemma CollectedKeepsPolicies(ps: Parsers, logs: Logs, clock: int, visit: set<WorldKey>, w: WorldKey)
    ensures ParsePolicy(ps, Collected(ps, logs, clock, visit), w) == ParsePolicy(ps, logs, w)
  {
    CollectedKeepsPolicyAtoms(ps, logs, clock, visit);
    PolicyDependsOnPolicyAtoms(ps, logs, Collected(ps, logs, clock, visit), w);
  }

  lemma CollectedElsewhere(ps: Parsers, logs: Logs, clock: int, visit: set<WorldKey>, w: WorldKey)
    requires w !in visit
    ensures LogOf(Collected(ps, logs, clock, visit), w) == LogOf(logs, w)
    ensures w in Collected(ps, logs, clock, visit) <==> w in logs
  {
  }

  lemma NothingCollected(ps: Parsers, logs: Logs, clock: int)
    ensures Collected(ps, logs, clock, {}) == logs && Evicted(ps, logs, clock, {}) == {}
  {
  }

  /** With unique ids, deleting the doomed ids deletes the doomed atoms and no others. */
  lemma DeleteIsSurvival(ps: Parsers, logs: Logs, clock: int, w: WorldKey, ids: seq<AtomId>)
    requires UniqueLogs(logs)
    requires var atoms := LogOf(logs, w);
             forall id :: id in ids <==>
               exists a :: a in atoms && a.id == id
                           && Doomed(ps, ParsePolicy(ps, logs, w), atoms, LatestTime(ps, atoms, clock), a)
    ensures Keep((a: Atom) => a.id !in ids, LogOf(logs, w)) == Survivors(ps, logs, clock, w)
  {
    hide Doomed, Keep;
    var atoms := LogOf(logs, w);
    var p := ParsePolicy(ps, logs, w);
    var now := LatestTime(ps, atoms, clock);
    forall a | a in atoms
      ensures (a.id !in ids) == !Doomed(ps, p, atoms, now, a)
    {
      if a.id in ids {
        var b :| b in atoms && b.id == a.id && Doomed(ps, p, atoms, now, b);
        var i :| 0 <= i < |atoms| && atoms[i] == a;
        var j :| 0 <= j < |atoms| && atoms[j] == b;
        assert i == j;
      }
    }
    KeepCongruent((a: Atom) => a.id !in ids, (a: Atom) => !Doomed(ps, p, atoms, now, a), atoms);
  }

  lemma CollectedOneMore(
    ps: Parsers, logs: Logs, clock: int, done: set<WorldKey>, w: WorldKey, ids: seq<AtomId>)
    requires UniqueLogs(logs) && w !in done
    requires var atoms := LogOf(logs, w);
             forall id :: id in ids <==>
               exists a :: a in atoms && a.id == id
                           && Doomed(ps, ParsePolicy(ps, logs, w), atoms, LatestTime(ps, atoms, clock), a)
    ensures Collected(ps, logs, clock, done + {w})
         == if w in logs
            then Collected(ps, logs, clock, done)[w := Keep((a: Atom) => a.id !in ids, logs[w])]
            else Collected(ps, logs, clock, done)
  {
    hide Survivors, Doomed, Keep;
    DeleteIsSurvival(ps, logs, clock, w, ids);
  }

  function Elements(s: seq<Atom>): set<Atom> { set a | a in s }

  lemma ElementsCons(x: Atom, s: seq<Atom>)
    ensures Elements([x] + s) == {x} + Elements(s)
  {
  }

  lemma {:induction false} SetOfUnique(s: seq<Atom>)
    requires UniqueIds(s)
    ensures |Elements(s)| == |s|
  {
    if s != [] {
      hide Elements;
      var rest := s[1..];
      assert forall i :: 0 <= i < |rest| ==> rest[i] == s[i + 1] && rest[i].id != s[0].id;
      SetOfUnique(rest);
      assert s == [s[0]] + rest;
      ElementsCons(s[0], rest);
      NotElement(s[0], rest);
    }
  }

  lemma NotElement(x: Atom, s: seq<Atom>)
    requires forall i :: 0 <= i < |s| ==> s[i].id != x.id
    ensures x !in Elements(s)
  {
  }

  lemma {:induction false} KeepUnique(f: Atom -> bool, s: seq<Atom>)
    requires UniqueIds(s)
    ensures UniqueIds(Keep(f, s))
  {
    if s != [] {
      KeepUnique(f, s[1..]);
      var rest := Keep(f, s[1..]);
      forall j | 0 <= j < |rest|
        ensures rest[j].id != s[0].id
      {
        assert rest[j] in rest && rest[j] in s[1..];
        var i :| 0 <= i < |s[1..]| && s[1..][i] == rest[j];
        assert s[i + 1].id != s[0].id;
      }
    }
  }

  lemma {:induction false} PairSize(w: WorldKey, atoms: set<Atom>)
    ensures |Pairs(w, atoms)| == |atoms|
  {
    if atoms != {} {
      var x :| x in atoms;
      PairSize(w, atoms - {x});
      assert Pairs(w, atoms) == Pairs(w, atoms - {x}) + {(w, x)};
    }
  }

  function Pairs(w: WorldKey, atoms: set<Atom>): set<(WorldKey, Atom)> { set a | a in atoms :: (w, a) }

  lemma EvictedGrows(ps: Parsers, logs: Logs, clock: int, done: set<WorldKey>, w: WorldKey)
    requires w !in done
    ensures var gone := Elements(LogOf(logs, w)) - Elements(Survivors(ps, logs, clock, w));
            && Evicted(ps, logs, clock, done + {w}) == Evicted(ps, logs, clock, done) + Pairs(w, gone)
            && Evicted(ps, logs, clock, done) !! Pairs(w, gone)
  {
    hide Survivors;
  }

  lemma EvictedOneMore(ps: Parsers, logs: Logs, clock: int, done: set<WorldKey>, w: WorldKey)
    requires UniqueLogs(logs) && w !in done
    ensures |Evicted(ps, logs, clock, done + {w})|
         == |Evicted(ps, logs, clock, done)| + |LogOf(logs, w)| - |Survivors(ps, logs, clock, w)|
  {
    hide Survivors, Evicted, Elements, Pairs, UniqueLogs;
    EvictedGrows(ps, logs, clock, done, w);
    PairSize(w, Elements(LogOf(logs, w)) - Elements(Survivors(ps, logs, clock, w)));
    SurvivorCounts(ps, logs, clock, w);
  }

  lemma SurvivorCounts(ps: Parsers, logs: Logs, clock: int, w: WorldKey)
    requires UniqueLogs(logs)
    ensures |Elements(LogOf(logs, w)) - Elements(Survivors(ps, logs, clock, w))|
         == |LogOf(logs, w)| - |Survivors(ps, logs, clock, w)|
  {
    hide Doomed;
    var atoms := LogOf(logs, w);
    var p := ParsePolicy(ps, logs, w);
    var now := LatestTime(ps, atoms, clock);
    var f := (a: Atom) => !Doomed(ps, p, atoms, now, a);
    var kept := Keep(f, atoms);
    SetOfUnique(atoms);
    KeepUnique(f, atoms);
    SetOfUnique(kept);
    assert Elements(kept) <= Elements(atoms);
  }

  /**
   Deletion is exact: an atom of a visited world is taken exactly when nothing protects it and it is
   expired or below the minimum importance, judged by the store and the policies at the start.
   */
  lemma DeletedExactly(ps: Parsers, logs: Logs, clock: int, visit: set<WorldKey>, w: WorldKey, a: Atom)
    requires a in LogOf(logs, w)
    ensures var atoms := LogOf(logs, w);
            a in LogOf(Collected(ps, logs, clock, visit), w) <==>
              !(w in visit && !Protected(atoms, a)
                && (Expired(ps, ParsePolicy(ps, logs, w), LatestTime(ps, atoms, clock), a)
                    || LowImportance(ParsePolicy(ps, logs, w), a)))
  {
    hide Protected, Expired, LowImportance;
  }

  lemma {:induction false} LatestBounds(ps: Parsers, atoms: seq<Atom>, clock: int, a: Atom)
    requires a in atoms && ps.time(a.timestamp).Some?
    ensures LatestOf(ps, atoms).Some? && ps.time(a.timestamp).value <= LatestTime(ps, atoms, clock)
  {
    assert atoms == [atoms[0]] + atoms[1..];
    if a in atoms[1..] { LatestBounds(ps, atoms[1..], clock, a); }
  }

  lemma {:induction false} NewestExists(ps: Parsers, atoms: seq<Atom>)
    requires LatestOf(ps, atoms).Some?
    ensures exists a :: a in atoms && ps.time(a.timestamp) == LatestOf(ps, atoms)
  {
    assert atoms == [atoms[0]] + atoms[1..];
    if LatestOf(ps, atoms) == ps.time(atoms[0].timestamp) {
      assert atoms[0] in atoms;
    } else {
      NewestExists(ps, atoms[1..]);
      var a :| a in atoms[1..] && ps.time(a.timestamp) == LatestOf(ps, atoms[1..]);
      assert a in atoms;
    }
  }

  lemma NewestIs(ps: Parsers, atoms: seq<Atom>, clock: int)
    requires LatestOf(ps, atoms).Some?
    ensures exists a :: a in atoms && ps.time(a.timestamp) == Some(LatestTime(ps, atoms, clock))
  {
    NewestExists(ps, atoms);
  }

  /** The newest atom expires exactly under a retention that wraps to a negative number of days. */
  lemma NewestExpires(ps: Parsers, p: Policy, atoms: seq<Atom>, clock: int, a: Atom)
    requires ps.time(a.timestamp) == Some(LatestTime(ps, atoms, clock))
    requires p.retentionDays.Some? && 0 < p.retentionDays.value < U64_LIMIT
    ensures Expired(ps, p, LatestTime(ps, atoms, clock), a) <==> p.retentionDays.value >= 0x8000_0000_0000_0000
  {
    assert p.retentionDays.value % U64_LIMIT == p.retentionDays.value;
  }

  /**
   A retention expires every atom with a readable timestamp exactly when it is 2^63 days or more, and
   so wraps to a negative number. Such a pass does not panic just for the last `MAX_DAYS` of those.
   */
  lemma HugeRetentionExpiresAll(ps: Parsers, p: Policy, atoms: seq<Atom>, clock: int)
    requires exists a :: a in atoms && ps.time(a.timestamp).Some?
    requires p.retentionDays.Some? && 0 < p.retentionDays.value < U64_LIMIT
    ensures var now := LatestTime(ps, atoms, clock);
            var days := p.retentionDays.value;
            && ((forall a :: a in atoms && ps.time(a.timestamp).Some? ==> Expired(ps, p, now, a))
                <==> days >= 0x8000_0000_0000_0000)
            && (days >= 0x8000_0000_0000_0000 ==> (Overflows(days) <==> days < U64_LIMIT - MAX_DAYS))
  {
    hide LatestTime, Overflows;
    var now := LatestTime(ps, atoms, clock);
    var days := p.retentionDays.value;
    var some :| some in atoms && ps.time(some.timestamp).Some?;
    LatestBounds(ps, atoms, clock, some);
    NewestIs(ps, atoms, clock);
    var newest :| newest in atoms && ps.time(newest.timestamp) == Some(now);
    NewestExpires(ps, p, atoms, clock, newest);
    OverflowRange(days);
    if days >= 0x8000_0000_0000_0000 {
      assert days % U64_LIMIT == days;
      forall a | a in atoms && ps.time(a.timestamp).Some?
        ensures Expired(ps, p, now, a)
      {
        LatestBounds(ps, atoms, clock, a);
      }
    }
  }

  // ---------------------------------------------------------------- live links, over runs

  /** A pass that a panic cuts short is the collection of the worlds it got through. */
  datatype Op = AppendOp(atom: Atom) | GcOp(visit: set<WorldKey>, clock: int)

  /** A store and the ids ever used in it. */
  datatype Store = Store(logs: Logs, used: set<AtomId>)

  function Step(ps: Parsers, s: Store, op: Op): Store {
    match op
    case AppendOp(a) => Store(s.logs[a.world := LogOf(s.logs, a.world) + [a]], s.used + {a.id})
    case GcOp(visit, clock) => Store(Collected(ps, s.logs, clock, visit), s.used)
  }

  /** Appends use ids never used before. */
  ghost predicate FreshOps(ps: Parsers, s: Store, ops: seq<Op>)
    decreases |ops|
  {
    ops == [] || ((ops[0].AppendOp? ==> ops[0].atom.id !in s.used) && FreshOps(ps, Step(ps, s, ops[0]), ops[1..]))
  }

  function Run(ps: Parsers, s: Store, ops: seq<Op>): Store
    decreases |ops|
  {
    if ops == [] then s else Run(ps, Step(ps, s, ops[0]), ops[1..])
  }

  ghost predicate UsedCovers(s: Store) {
    forall w, a :: a in LogOf(s.logs, w) ==> a.id in s.used
  }

  lemma StepCovers(ps: Parsers, s: Store, op: Op)
    requires UsedCovers(s)
    ensures UsedCovers(Step(ps, s, op))
    ensures s.used <= Step(ps, s, op).used
  {
    match op {
      case AppendOp(x) =>
        forall w, a | a in LogOf(Step(ps, s, op).logs, w)
          ensures a.id in s.used + {x.id}
        {
          assert a in LogOf(s.logs, w) || a == x;
        }
      case GcOp(visit, clock) =>
        forall w, a | a in LogOf(Step(ps, s, op).logs, w)
          ensures a in LogOf(s.logs, w)
        {
          CollectedIsSubset(ps, s.logs, clock, visit, w, a);
        }
    }
  }

  lemma CollectedIsSubset(ps: Parsers, logs: Logs, clock: int, visit: set<WorldKey>, w: WorldKey, a: Atom)
    requires a in LogOf(Collected(ps, logs, clock, visit), w)
    ensures a in LogOf(logs, w)
  {
    hide Doomed;
  }

  /** One collection never takes the target of a link from an atom stored beside it. */
  lemma CollectionKeepsTargets(ps: Parsers, logs: Logs, clock: int, visit: set<WorldKey>, w: WorldKey, a: Atom, b: Atom)
    requires a in LogOf(logs, w) && b in LogOf(logs, w) && LinksTo(a, b.id)
    ensures b in LogOf(Collected(ps, logs, clock, visit), w)
  {
    var i :| 0 <= i < |LogOf(logs, w)| && LogOf(logs, w)[i] == a;
    assert Referenced(LogOf(logs, w), b.id);
    DeletedExactly(ps, logs, clock, visit, w, b);
  }

  lemma StepKeepsLink(ps: Parsers, s: Store, op: Op, w: WorldKey, a: Atom, b: Atom)
    requires UsedCovers(s) && (op.AppendOp? ==> op.atom.id !in s.used)
    requires a.id in s.used && LinksTo(a, b.id)
    requires a in LogOf(s.logs, w) ==> b in LogOf(s.logs, w)
    ensures a in LogOf(Step(ps, s, op).logs, w) ==> b in LogOf(Step(ps, s, op).logs, w)
  {
    hide LinksTo, Doomed;
    match op {
      case AppendOp(x) =>
      case GcOp(visit, clock) =>
        if a in LogOf(s.logs, w) { CollectionKeepsTargets(ps, s.logs, clock, visit, w, a, b); }
    }
  }

  /**
   Over any interleaving of fresh appends and collections, of any worlds in any order: once an atom
   and a target it links to are stored together, the target is stored as long as the atom is.
   */
  lemma {:induction false} LiveLinksHold(ps: Parsers, s: Store, ops: seq<Op>, w: WorldKey, a: Atom, b: Atom)
    requires UsedCovers(s) && FreshOps(ps, s, ops)
    requires a.id in s.used && LinksTo(a, b.id)
    requires a in LogOf(s.logs, w) ==> b in LogOf(s.logs, w)
    ensures a in LogOf(Run(ps, s, ops).logs, w) ==> b in LogOf(Run(ps, s, ops).logs, w)
    decreases |ops|
  {
    hide LinksTo, Step;
    if ops != [] {
      StepCovers(ps, s, ops[0]);
      StepKeepsLink(ps, s, ops[0], w, a, b);
      LiveLinksHold(ps, Step(ps, s, ops[0]), ops[1..], w, a, b);
    }
  }

  /** A chain of links inside one stored log. */
  ghost predicate Chain(log: seq<Atom>, path: seq<Atom>) {
    && (forall i :: 0 <= i < |path| ==> path[i] in log)
    && (forall i :: 0 <= i < |path| - 1 ==> LinksTo(path[i], path[i + 1].id))
  }

  /** So everything reachable from a survivor along stored links survives with it. */
  lemma {:induction false} ReachableSurvive(ps: Parsers, s: Store, ops: seq<Op>, w: WorldKey, path: seq<Atom>)
    requires UsedCovers(s) && FreshOps(ps, s, ops)
    requires path != [] && Chain(LogOf(s.logs, w), path) && path[0] in LogOf(Run(ps, s, ops).logs, w)
    ensures Chain(LogOf(Run(ps, s, ops).logs, w), path)
  {
    hide LinksTo, Run, FreshOps;
    if |path| > 1 {
      LiveLinksHold(ps, s, ops, w, path[0], path[1]);
      assert Chain(LogOf(s.logs, w), path[1..]) by {
        assert forall i :: 0 <= i < |path[1..]| ==> path[1..][i] == path[i + 1];
      }
      ReachableSurvive(ps, s, ops, w, path[1..]);
      assert forall i :: 0 < i < |path| ==> path[i] == path[1..][i - 1];
    }
  }
}
