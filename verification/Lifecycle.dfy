/** World status: metadata atoms in the world's own log, read back as the latest by timestamp. */
module Lifecycle {
  import opened Prelude
  import opened Atoms
  import opened Policy
  import opened Gc

  datatype Action =
    | Create(world: WorldKey, description: Option<string>, labels: seq<string>)
    | Archive(world: WorldKey)
    | Resume(world: WorldKey)

  const META: string := "world_meta"
  const STATUS: string := "world_status:"
  const ACTIVE: string := "active"
  const ARCHIVED: string := "archived"

  function NextStatus(action: Action): string {
    if action.Archive? then ARCHIVED else ACTIVE
  }

  predicate IsMeta(a: Atom) { META in a.labels }

  /** The first status label's value. */
  function StatusOf(labels: seq<string>): Option<string> {
    if labels == [] then None
    else if Strip(labels[0], STATUS).Some? then Strip(labels[0], STATUS)
    else StatusOf(labels[1..])
  }

  datatype Dated = Dated(at: int, status: string)

  /** One step of the search for the latest status: only a strictly later atom replaces the best. */
  function Later(ps: Parsers, best: Option<Dated>, a: Atom): Option<Dated> {
    match StatusOf(a.labels)
    case None => best
    case Some(status) =>
      if best.None? || best.value.at < TimeOf(ps, a) then Some(Dated(TimeOf(ps, a), status)) else best
  }

  function Latest(ps: Parsers, metas: seq<Atom>): Option<Dated> {
    if metas == [] then None else Later(ps, Latest(ps, metas[..|metas| - 1]), metas[|metas| - 1])
  }

  function Metas(log: seq<Atom>): seq<Atom> { Keep(IsMeta, log) }

  function WorldStatus(ps: Parsers, logs: Logs, w: WorldKey): Option<string> {
    match Latest(ps, Metas(LogOf(logs, w)))
    case None => None
    case Some(d) => Some(d.status)
  }

  predicate Archived(ps: Parsers, logs: Logs, w: WorldKey) {
    WorldStatus(ps, logs, w) == Some(ARCHIVED)
  }

  /** The metadata atom an action appends. */
  function MetaAtom(action: Action, id: AtomId, now: string, payload: string): Atom {
    Atom(id, action.world, "system", Reflection, now, 0.1, payload, None, [],
         [META, STATUS + NextStatus(action)] + (if action.Create? then action.labels else []), [])
  }

  /** Nothing to record: the status is already right and the action brings nothing else. */
  predicate Idle(ps: Parsers, logs: Logs, action: Action) {
    && WorldStatus(ps, logs, action.world) == Some(NextStatus(action))
    && (action.Create? ==> action.description.None? && action.labels == [])
  }

  function Manage(ps: Parsers, logs: Logs, action: Action, id: AtomId, now: string, payload: string): Logs {
    if Idle(ps, logs, action) then logs
    else logs[action.world := LogOf(logs, action.world) + [MetaAtom(action, id, now, payload)]]
  }

  class WorldManager {
    const ps: Parsers
    var logs: Logs

    constructor (ps: Parsers)
      ensures this.ps == ps && logs == map[]
    {
      this.ps, logs := ps, map[];
    }

    method Status(w: WorldKey) returns (status: Option<string>)
      ensures status == WorldStatus(ps, logs, w)
    {
      hide StatusOf, TimeOf, IsMeta, Metas;
      var metas := Metas(LogOf(logs, w));
      var best: Option<Dated> := None;
      for i := 0 to |metas|
        invariant best == Latest(ps, metas[..i])
      {
        assert metas[..i + 1][..i] == metas[..i];
        var ts := TimeOf(ps, metas[i]);
        var found := StatusOf(metas[i].labels);
        if found.Some? && (best.None? || best.value.at < ts) { best := Some(Dated(ts, found.value)); }
      }
      assert metas[..|metas|] == metas;
      status := if best.None? then None else Some(best.value.status);
    }

    method ManageWorld(action: Action, id: AtomId, now: string, payload: string)
      modifies this`logs
      ensures logs == Manage(ps, old(logs), action, id, now, payload)
    {
      var next := if action.Archive? then ARCHIVED else ACTIVE;
      var extra := if action.Create? then action.labels else [];
      var description := if action.Create? then action.description else None;
      var current := Status(action.world);
      if current == Some(next) && description.None? && extra == [] { return; }
      var meta := Atom(id, action.world, "system", Reflection, now, 0.1, payload, None, [],
                       [META, STATUS + next] + extra, []);
      logs := logs[action.world := LogOf(logs, action.world) + [meta]];
    }
  }

  /** The first status label of an atom, if it is a metadata atom, says `status`. */
  ghost predicate Declares(a: Atom, status: string) {
    && "world_meta" in a.labels
    && exists k :: 0 <= k < |a.labels| && a.labels[k] == "world_status:" + status
                   && forall n :: 0 <= n < k ==> !("world_status:" <= a.labels[n])
  }

  /** What cannot be read counts as the start of 1970. */
  function TimeOrStart(ps: Parsers, a: Atom): int {
    match ps.time(a.timestamp)
    case None => 0
    case Some(t) => t
  }

  /** The atom at `i` declares the status, none that declares one is later, and none before it is as late. */
  ghost predicate Rules(ps: Parsers, log: seq<Atom>, i: int, status: string) {
    && 0 <= i < |log| && Declares(log[i], status)
    && forall j, other :: 0 <= j < |log| && Declares(log[j], other) ==>
         TimeOrStart(ps, log[j]) <= TimeOrStart(ps, log[i])
         && (j < i ==> TimeOrStart(ps, log[j]) < TimeOrStart(ps, log[i]))
  }

  lemma {:induction false} StatusOfMeaning(labels: seq<string>, status: string)
    ensures StatusOf(labels) == Some(status) <==>
              exists k :: 0 <= k < |labels| && labels[k] == "world_status:" + status
                          && forall n :: 0 <= n < k ==> !("world_status:" <= labels[n])
  {
    hide Strip;
    if labels != [] {
      var rest := labels[1..];
      StatusOfMeaning(rest, status);
      StripStatus(labels[0], status);
      assert forall n :: 0 <= n < |rest| ==> labels[n + 1] == rest[n];
      if StatusOf(labels) == Some(status) {
        if Strip(labels[0], STATUS).None? {
          var k :| 0 <= k < |rest| && rest[k] == "world_status:" + status
                   && forall n :: 0 <= n < k ==> !("world_status:" <= rest[n]);
          assert labels[k + 1] == "world_status:" + status;
        } else {
          assert labels[0] == "world_status:" + status;
        }
      }
      if k :| 0 <= k < |labels| && labels[k] == "world_status:" + status
              && forall n :: 0 <= n < k ==> !("world_status:" <= labels[n]) {
        if k > 0 { assert rest[k - 1] == "world_status:" + status; }
      }
    }
  }

  lemma StripStatus(tag: string, status: string)
    ensures Strip(tag, STATUS) == Some(status) <==> tag == "world_status:" + status
    ensures Strip(tag, STATUS).Some? <==> "world_status:" <= tag
  {
  }

  lemma DeclaresIs(a: Atom, status: string)
    ensures Declares(a, status) <==> IsMeta(a) && StatusOf(a.labels) == Some(status)
  {
    hide StatusOf;
    StatusOfMeaning(a.labels, status);
  }

  ghost predicate Ruled(ps: Parsers, log: seq<Atom>, i: int, latest: Option<Dated>) {
    match latest
    case None => forall j, status :: 0 <= j < |log| ==> !Declares(log[j], status)
    case Some(d) => Rules(ps, log, i, d.status) && TimeOrStart(ps, log[i]) == d.at
  }

  lemma NewRules(ps: Parsers, front: seq<Atom>, a: Atom, k: int, best: Option<Dated>, status: string)
    requires Ruled(ps, front, k, best) && Declares(a, status)
    requires best.Some? ==> best.value.at < TimeOrStart(ps, a)
    ensures Ruled(ps, front + [a], |front|, Some(Dated(TimeOrStart(ps, a), status)))
  {
    hide Declares, TimeOrStart;
    var log := front + [a];
    assert log[|front|] == a && forall j :: 0 <= j < |front| ==> log[j] == front[j];
  }

  lemma OldRules(ps: Parsers, front: seq<Atom>, a: Atom, k: int, best: Option<Dated>)
    requires Ruled(ps, front, k, best)
    requires forall status :: Declares(a, status) ==> best.Some? && TimeOrStart(ps, a) <= best.value.at
    ensures Ruled(ps, front + [a], k, best)
  {
    hide Declares, TimeOrStart;
    var log := front + [a];
    assert log[|front|] == a && forall j :: 0 <= j < |front| ==> log[j] == front[j];
  }

  /** The search through the metadata ends at the atom that rules. */
  lemma {:induction false} LatestRules(ps: Parsers, log: seq<Atom>) returns (i: int)
    ensures Ruled(ps, log, i, Latest(ps, Metas(log)))
  {
    hide Declares, StatusOf, IsMeta, Metas, Ruled;
    i := |log| - 1;
    if log == [] {
      NoMetas(ps, i);
    } else {
      var front, a := log[..i], log[i];
      assert log == front + [a];
      var k := LatestRules(ps, front);
      MetasSnoc(front, a);
      var metas := Metas(front);
      assert (metas + [a])[..|metas|] == metas;
      forall status ensures Declares(a, status) <==> IsMeta(a) && StatusOf(a.labels) == Some(status) {
        DeclaresIs(a, status);
      }
      var best := Latest(ps, metas);
      if IsMeta(a) && StatusOf(a.labels).Some? && (best.None? || best.value.at < TimeOf(ps, a)) {
        NewRules(ps, front, a, k, best, StatusOf(a.labels).value);
      } else {
        OldRules(ps, front, a, k, best);
        i := k;
      }
    }
  }

  lemma NoMetas(ps: Parsers, i: int)
    ensures Ruled(ps, [], i, Latest(ps, Metas([])))
  {
  }

  lemma OneRules(ps: Parsers, log: seq<Atom>, i: int, j: int, x: string, y: string)
    requires Rules(ps, log, i, x) && Rules(ps, log, j, y)
    ensures x == y
  {
    hide Declares;
    assert i == j;
    DeclaresIs(log[i], x);
    DeclaresIs(log[i], y);
  }

  /**
   A world's status is what its latest metadata atom with one declares, the earliest of them on a tie,
   whatever other atoms its log has.
   */
  lemma StatusMeaning(ps: Parsers, logs: Logs, w: WorldKey, status: string)
    ensures WorldStatus(ps, logs, w) == Some(status) <==> exists i :: Rules(ps, LogOf(logs, w), i, status)
  {
    hide Declares, Rules, Latest, Metas;
    var log := LogOf(logs, w);
    var i := LatestRules(ps, log);
    if j :| Rules(ps, log, j, status) {
      RulesDeclares(ps, log, j, status);
      OneRules(ps, log, i, j, Latest(ps, Metas(log)).value.status, status);
    }
  }

  lemma RulesDeclares(ps: Parsers, log: seq<Atom>, i: int, status: string)
    requires Rules(ps, log, i, status)
    ensures 0 <= i < |log| && Declares(log[i], status)
  {
  }

  /**
   What an action records: nothing when the world already has the status and the action brings neither
   labels nor a description; otherwise one metadata atom at the end of the world's log, with the status
   and the labels a creation brings. No other log changes.
   */
  lemma ActionRecorded(ps: Parsers, logs: Logs, action: Action, id: AtomId, now: string, payload: string, w: WorldKey)
    ensures var log, log' := LogOf(logs, w), LogOf(Manage(ps, logs, action, id, now, payload), w);
            var status := if action.Archive? then "archived" else "active";
            if w != action.world
               || (WorldStatus(ps, logs, w) == Some(status)
                   && (action.Create? ==> action.labels == [] && action.description == None))
            then log' == log
            else
              && |log'| == |log| + 1 && log'[..|log|] == log
              && var m := log'[|log|];
                 && (m.id, m.world, m.worker, m.kind) == (id, w, "system", Reflection)
                 && (m.timestamp, m.payload, m.importance) == (now, payload, 0.1)
                 && m.labels == ["world_meta", "world_status:" + status]
                                + (if action.Create? then action.labels else [])
                 && m.vector == None && m.flags == [] && m.links == []
  {
    hide Latest, Metas;
  }

  lemma MetaAtomStatus(action: Action, id: AtomId, now: string, payload: string)
    ensures var m := MetaAtom(action, id, now, payload);
            IsMeta(m) && StatusOf(m.labels) == Some(NextStatus(action))
  {
    var labels := MetaAtom(action, id, now, payload).labels;
    assert labels[0] == META && labels[1] == STATUS + NextStatus(action);
    assert META[0] == STATUS[0] && META[6] == 'm' && STATUS[6] == 's';
    assert !(STATUS <= META);
    assert labels[1..][0] == labels[1];
  }

  /**
   One recorded action takes effect exactly when its timestamp is strictly later than that of the
   status in force, or repeats it. In the same instant, a resume after an archive is ignored.
   */
  lemma ActionTakesEffect(ps: Parsers, logs: Logs, action: Action, id: AtomId, now: string, payload: string)
    requires !Idle(ps, logs, action)
    ensures var w := action.world;
            var before := Latest(ps, Metas(LogOf(logs, w)));
            var at := TimeOf(ps, MetaAtom(action, id, now, payload));
            WorldStatus(ps, Manage(ps, logs, action, id, now, payload), w) == Some(NextStatus(action)) <==>
              before.None? || before.value.at < at || before.value.status == NextStatus(action)
  {
    hide IsMeta, Metas, StatusOf, NextStatus, MetaAtom, Idle;
    MetaAtomStatus(action, id, now, payload);
    MetasSnoc(LogOf(logs, action.world), MetaAtom(action, id, now, payload));
    var metas := Metas(LogOf(logs, action.world));
    assert (metas + [MetaAtom(action, id, now, payload)])[..|metas|] == metas;
  }

  // ---------------------------------------------------------------- runs

  datatype Op =
    | ManageOp(action: Action, id: AtomId, now: string, payload: string)
    | RememberOp(atom: Atom)
    | GcPassOp(visit: set<WorldKey>, clock: int)

  function Apply(ps: Parsers, logs: Logs, op: Op): Logs {
    match op
    case ManageOp(action, id, now, payload) => Manage(ps, logs, action, id, now, payload)
    case RememberOp(a) => logs[a.world := LogOf(logs, a.world) + [a]]
    case GcPassOp(visit, clock) => Gc.Collected(ps, logs, clock, visit)
  }

  function RunOps(ps: Parsers, ops: seq<Op>): Logs {
    if ops == [] then map[] else Apply(ps, RunOps(ps, ops[..|ops| - 1]), ops[|ops| - 1])
  }

  /** The status the last action on `w` asked for. */
  function LastAction(ops: seq<Op>, w: WorldKey): Option<string> {
    if ops == [] then None
    else
      var op := ops[|ops| - 1];
      if op.ManageOp? && op.action.world == w then Some(NextStatus(op.action)) else LastAction(ops[..|ops| - 1], w)
  }

  /** Actions carry readable, strictly increasing timestamps; remembered atoms are not metadata. */
  ghost predicate Orderly(ps: Parsers, ops: seq<Op>) {
    && (forall i :: 0 <= i < |ops| && ops[i].ManageOp? ==> ps.time(ops[i].now).Some?)
    && (forall i, j :: 0 <= i < j < |ops| && ops[i].ManageOp? && ops[j].ManageOp? ==>
          ps.time(ops[i].now).value < ps.time(ops[j].now).value)
    && (forall i :: 0 <= i < |ops| && ops[i].RememberOp? ==> "world_meta" !in ops[i].atom.labels)
  }

  /** The time of some action of the run. */
  ghost predicate ActionTime(ps: Parsers, ops: seq<Op>, t: int) {
    exists i :: 0 <= i < |ops| && ops[i].ManageOp? && ps.time(ops[i].now) == Some(t)
  }

  /** The metadata of `w` in force: its status is that of the last action, and its time is an action's. */
  ghost predicate InForce(ps: Parsers, ops: seq<Op>, logs: Logs, w: WorldKey) {
    var latest := Latest(ps, Metas(LogOf(logs, w)));
    match LastAction(ops, w)
    case None => latest == None
    case Some(status) => latest.Some? && latest.value.status == status && ActionTime(ps, ops, latest.value.at)
  }

  lemma MetaProtected(ps: Parsers, p: Policy, atoms: seq<Atom>, now: int, a: Atom)
    requires IsMeta(a)
    ensures !Doomed(ps, p, atoms, now, a)
  {
    var i :| 0 <= i < |a.labels| && a.labels[i] == META;
    assert IsPolicyAtom(a);
  }

  /** Collection never touches world metadata. */
  lemma CollectionKeepsMetas(ps: Parsers, logs: Logs, clock: int, visit: set<WorldKey>, w: WorldKey)
    ensures Metas(LogOf(Gc.Collected(ps, logs, clock, visit), w)) == Metas(LogOf(logs, w))
  {
    hide IsMeta, Doomed, Keep;
    if w in logs && w in visit {
      var atoms := LogOf(logs, w);
      var p := ParsePolicy(ps, logs, w);
      var now := LatestTime(ps, atoms, clock);
      forall a | a in atoms && IsMeta(a)
        ensures !Doomed(ps, p, atoms, now, a)
      {
        MetaProtected(ps, p, atoms, now, a);
      }
      KeepTwice(IsMeta, (a: Atom) => !Doomed(ps, p, atoms, now, a), IsMeta, atoms);
    }
  }

  lemma ActionTimes(ps: Parsers, front: seq<Op>, op: Op, t: int)
    requires Orderly(ps, front + [op])
    ensures ActionTime(ps, front, t) ==> ActionTime(ps, front + [op], t)
    ensures op.ManageOp? ==> ps.time(op.now).Some? && ActionTime(ps, front + [op], ps.time(op.now).value)
    ensures op.ManageOp? && ActionTime(ps, front, t) ==> t < ps.time(op.now).value
    ensures op.RememberOp? ==> !IsMeta(op.atom)
  {
    var ops := front + [op];
    assert ops[|front|] == op && forall i :: 0 <= i < |front| ==> ops[i] == front[i];
    if ActionTime(ps, front, t) {
      var i :| 0 <= i < |front| && front[i].ManageOp? && ps.time(front[i].now) == Some(t);
      assert ops[i].ManageOp?;
    }
  }

  /** The metadata in force after an action, from that before it. */
  lemma ManageLatest(ps: Parsers, logs: Logs, action: Action, id: AtomId, now: string, payload: string, w: WorldKey)
    ensures var before := Latest(ps, Metas(LogOf(logs, w)));
            Latest(ps, Metas(LogOf(Manage(ps, logs, action, id, now, payload), w)))
            == if action.world == w && !Idle(ps, logs, action)
               then Later(ps, before, MetaAtom(action, id, now, payload)) else before
  {
    hide IsMeta, Metas, Idle, MetaAtom, Later, StatusOf;
    var metas := Metas(LogOf(logs, w));
    var m := MetaAtom(action, id, now, payload);
    MetaAtomStatus(action, id, now, payload);
    MetasSnoc(LogOf(logs, w), m);
    assert (metas + [m])[..|metas|] == metas;
    assert m.world == action.world by { MetaAtomTime(ps, action, id, now, payload); }
  }

  lemma MetaAtomTime(ps: Parsers, action: Action, id: AtomId, now: string, payload: string)
    ensures var m := MetaAtom(action, id, now, payload);
            m.world == action.world && m.timestamp == now
            && TimeOf(ps, m) == if ps.time(now).Some? then ps.time(now).value else 0
  {
  }

  lemma ManageStep(ps: Parsers, front: seq<Op>, op: Op, logs: Logs, w: WorldKey)
    requires op.ManageOp? && Orderly(ps, front + [op]) && InForce(ps, front, logs, w)
    ensures InForce(ps, front + [op], Apply(ps, logs, op), w)
  {
    hide IsMeta, Metas, Orderly, ActionTime, StatusOf, NextStatus, MetaAtom, TimeOf, Manage, Latest;
    assert (front + [op])[..|front|] == front;
    var before := Latest(ps, Metas(LogOf(logs, w)));
    ActionTimes(ps, front, op, if before.Some? then before.value.at else 0);
    ManageLatest(ps, logs, op.action, op.id, op.now, op.payload, w);
    MetaAtomStatus(op.action, op.id, op.now, op.payload);
    MetaAtomTime(ps, op.action, op.id, op.now, op.payload);
  }

  lemma MetasSnoc(log: seq<Atom>, a: Atom)
    ensures Metas(log + [a]) == if IsMeta(a) then Metas(log) + [a] else Metas(log)
  {
    KeepSnoc(IsMeta, log, a);
  }

  lemma OtherStep(ps: Parsers, front: seq<Op>, op: Op, logs: Logs, w: WorldKey)
    requires !op.ManageOp? && Orderly(ps, front + [op]) && InForce(ps, front, logs, w)
    ensures InForce(ps, front + [op], Apply(ps, logs, op), w)
  {
    hide IsMeta, Metas, Orderly, ActionTime, Latest;
    assert (front + [op])[..|front|] == front;
    var latest := Latest(ps, Metas(LogOf(logs, w)));
    ActionTimes(ps, front, op, if latest.Some? then latest.value.at else 0);
    match op {
      case RememberOp(a) => MetasSnoc(LogOf(logs, w), a);
      case GcPassOp(visit, clock) => CollectionKeepsMetas(ps, logs, clock, visit, w);
    }
  }

  lemma {:induction false} RunInForce(ps: Parsers, ops: seq<Op>, w: WorldKey)
    requires Orderly(ps, ops)
    ensures InForce(ps, ops, RunOps(ps, ops), w)
  {
    hide Apply;
    if ops != [] {
      var n := |ops| - 1;
      var front := ops[..n];
      assert ops == front + [ops[n]];
      assert forall i :: 0 <= i < n ==> front[i] == ops[i];
      RunInForce(ps, front, w);
      if ops[n].ManageOp? {
        ManageStep(ps, front, ops[n], RunOps(ps, front), w);
      } else {
        OtherStep(ps, front, ops[n], RunOps(ps, front), w);
      }
    }
  }

  /**
   After any orderly interleaving of actions, remembered atoms and collections, a world reads as
   archived exactly when the last action on it was to archive, short-circuited actions included.
   */
  lemma ArchivedIffLastAction(ps: Parsers, ops: seq<Op>, w: WorldKey)
    requires Orderly(ps, ops)
    ensures WorldStatus(ps, RunOps(ps, ops), w) == LastAction(ops, w)
    ensures Archived(ps, RunOps(ps, ops), w) <==>
              exists i :: 0 <= i < |ops| && ops[i].ManageOp? && ops[i].action == Archive(w)
                && forall j :: i < j < |ops| && ops[j].ManageOp? ==> ops[j].action.world != w
  {
    RunInForce(ps, ops, w);
    LastActionIs(ops, w);
  }

  lemma {:induction false} LastActionIs(ops: seq<Op>, w: WorldKey)
    ensures LastAction(ops, w) == Some(ARCHIVED) <==>
              exists i :: 0 <= i < |ops| && ops[i].ManageOp? && ops[i].action == Archive(w)
                && forall j :: i < j < |ops| && ops[j].ManageOp? ==> ops[j].action.world != w
  {
    if ops != [] {
      var n := |ops| - 1;
      var front := ops[..n];
      LastActionIs(front, w);
      assert forall i :: 0 <= i < n ==> front[i] == ops[i];
    }
  }
}
