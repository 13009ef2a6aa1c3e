/**
 The engine over its stores: remembering, ingesting from peers, collecting and answering. The state
 below is what the class holds; the lemmas are about whole runs of it.
 */
module Engine {
  import opened Prelude
  import opened Atoms
  import opened Sorting
  import opened Policy
  import opened Conflicts
  import Q = Quarantine
  import R = Reflex
  import Gc

  datatype Config = Config(reflex: R.Config, ranking: Ranking, parsers: Parsers)

  datatype State = State(
    logs: Logs,
    vectors: map<WorldKey, set<AtomId>>,
    index: R.Index,
    conflicts: Conflicts,
    published: seq<Atom>)

  const EMPTY := State(map[], map[], map[], NO_CONFLICTS, [])

  function VectorsOf(vectors: map<WorldKey, set<AtomId>>, w: WorldKey): set<AtomId> {
    if w in vectors then vectors[w] else {}
  }

  predicate Stored(logs: Logs, id: AtomId) {
    exists w :: w in logs && exists i :: 0 <= i < |logs[w]| && logs[w][i].id == id
  }

  /** Vector, log, reflex index, conflicts, stream: a bad timestamp stops after the log. */
  function Admit(cfg: Config, s: State, a: Atom): State {
    var vectors := if a.vector.None? then s.vectors
                   else s.vectors[a.world := VectorsOf(s.vectors, a.world) + {a.id}];
    var logs := s.logs[a.world := LogOf(s.logs, a.world) + [a]];
    if !cfg.reflex.Parses(a) then s.(vectors := vectors, logs := logs)
    else State(logs, vectors, R.Inserted(cfg.reflex, s.index, a), Register(s.conflicts, a), s.published + [a])
  }

  /** The outcome of ingesting a batch: the ids taken, and whether every atom went through. */
  datatype Ingested = Ingested(state: State, ids: seq<AtomId>, ok: bool)

  function Ingest(cfg: Config, s: State, atoms: seq<Atom>): Ingested
    decreases |atoms|
  {
    if atoms == [] then Ingested(s, [], true)
    else
      var a := atoms[0];
      if Stored(s.logs, a.id) then Ingest(cfg, s, atoms[1..])
      else
        var s' := Admit(cfg, s, a);
        if !cfg.reflex.Parses(a) then Ingested(s', [], false)
        else
          var rest := Ingest(cfg, s', atoms[1..]);
          rest.(ids := [a.id] + rest.ids)
  }

  // ---------------------------------------------------------------- asking

  datatype Question = Question(world: WorldKey, filter: Option<AtomFilter>)

  const QUARANTINE: string := "quarantine:"
  const SCAN_LIMIT: nat := 20

  function FilterOf(q: Question): AtomFilter {
    if q.filter.None? then NO_FILTER else q.filter.value
  }

  /** The reflex path reads the question's flags as exclusions, and ignores `until` and `limit`. */
  function ReflexFilterOf(q: Question): R.ReflexFilter {
    var f := FilterOf(q);
    R.ReflexFilter(Some(q.world), f.kinds, f.labels, None, None, f.since, f.flags)
  }

  function ScanLog(logs: Logs, w: WorldKey, f: AtomFilter): seq<Atom> { FilteredLog(LogOf(logs, w), w, f) }

  function WithoutQuarantine(q: Question, atoms: seq<Atom>): seq<Atom> {
    if QUARANTINE <= q.world then atoms else Keep((a: Atom) => !(QUARANTINE <= a.world), atoms)
  }

  /** Everything considered for an answer, given the reflex hits and the atoms vector search brought. */
  function Candidates(logs: Logs, q: Question, hits: seq<Atom>, fetched: seq<Atom>): seq<Atom> {
    var first := if hits == [] then ScanLog(logs, q.world, FilterOf(q).(world := Some(q.world))) else hits;
    var all := WithoutQuarantine(q, first) + fetched;
    if all != [] then all
    else
      var scan := ScanLog(logs, q.world, FilterOf(q));
      if |scan| > SCAN_LIMIT then scan[..SCAN_LIMIT] else scan
  }

  /** What vector search may bring back: stored atoms whose ids were upserted for the question's world. */
  ghost predicate Fetchable(s: State, q: Question, fetched: seq<Atom>) {
    forall a :: a in fetched ==> a.id in VectorsOf(s.vectors, q.world) && exists w :: a in LogOf(s.logs, w)
  }

  function SinceOf(cfg: Config, q: Question): Option<int> {
    if FilterOf(q).since.None? then None else cfg.reflex.parse(FilterOf(q).since.value)
  }

  /** `answer` is what a question may be answered with: buckets are visited in an arbitrary order. */
  ghost predicate AnswerOf(cfg: Config, s: State, q: Question, fetched: seq<Atom>, answer: seq<Atom>) {
    exists hits :: R.Collected(cfg.reflex, s.index, ReflexFilterOf(q), SinceOf(cfg, q), hits, {})
                   && answer == Ranked(cfg.ranking, s.conflicts, Candidates(s.logs, q, hits, fetched))
  }

  class Engine {
    const cfg: Config
    const reflex: R.ReflexIndex
    const conflicts: ConflictIndex
    const suspicions: Q.SuspicionTracker
    var logs: Logs
    var vectors: map<WorldKey, set<AtomId>>
    var published: seq<Atom>

    function Current(): State
      reads this, reflex, conflicts
    {
      State(logs, vectors, reflex.buckets, conflicts.State(), published)
    }

    ghost predicate Valid()
      reads this, reflex
    {
      reflex.Valid() && reflex.cfg == cfg.reflex
    }

    constructor (cfg: Config)
      ensures Valid() && Current() == EMPTY && this.cfg == cfg
      ensures fresh(reflex) && fresh(conflicts) && fresh(suspicions)
    {
      this.cfg := cfg;
      reflex := new R.ReflexIndex(cfg.reflex);
      conflicts := new ConflictIndex();
      suspicions := new Q.SuspicionTracker();
      logs, vectors, published := map[], map[], [];
    }

    method AdmitAtom(a: Atom) returns (ok: bool)
      requires Valid()
      modifies this, reflex, conflicts
      ensures Valid() && Current() == Admit(cfg, old(Current()), a)
      ensures ok <==> cfg.reflex.Parses(a)
    {
      if a.vector.Some? { vectors := vectors[a.world := VectorsOf(vectors, a.world) + {a.id}]; }
      logs := logs[a.world := LogOf(logs, a.world) + [a]];
      var inserted := reflex.Insert(a);
      if inserted.Err? { return false; }
      conflicts.Register(a);
      published := published + [a];
      return true;
    }

    /** `a` carries the id and timestamp the engine filled in, and the vector it embedded. */
    method Remember(a: Atom, now: int) returns (ok: bool)
      requires Valid()
      modifies this, reflex, conflicts, suspicions
      ensures Valid()
      ensures var recent := |Q.Recorded(Q.QueueOf(old(suspicions.suspicions), a.worker), now)|;
              var filed := if Q.Suspect(a, recent) then Q.Diverted(a) else a;
              Current() == Admit(cfg, old(Current()), filed) && (ok <==> cfg.reflex.Parses(filed))
      ensures suspicions.suspicions
           == old(suspicions.suspicions)[a.worker := Q.Recorded(Q.QueueOf(old(suspicions.suspicions), a.worker), now)]
    {
      var suspect := suspicions.ShouldQuarantine(a, now);
      ok := AdmitAtom(if suspect then Q.Diverted(a) else a);
    }

    method IngestRemoteAtoms(atoms: seq<Atom>) returns (ids: seq<AtomId>, ok: bool)
      requires Valid()
      modifies this, reflex, conflicts
      ensures Valid()
      ensures Ingested(Current(), ids, ok) == Ingest(cfg, old(Current()), atoms)
    {
      hide Stored, Admit;
      ids := [];
      var i := 0;
      assert atoms[0..] == atoms;
      while i < |atoms|
        invariant 0 <= i <= |atoms| && Valid()
        invariant var rest := Ingest(cfg, Current(), atoms[i..]);
                  Ingest(cfg, old(Current()), atoms) == rest.(ids := ids + rest.ids)
      {
        var a := atoms[i];
        assert atoms[i..][0] == a && atoms[i..][1..] == atoms[i + 1..];
        if !Stored(logs, a.id) {
          var admitted := AdmitAtom(a);
          if !admitted { return ids, false; }
          ids := ids + [a.id];
        }
        i := i + 1;
      }
      return ids, true;
    }

    method Ask(q: Question, fetched: seq<Atom>) returns (r: Result<seq<Atom>, R.TimestampError>)
      requires Valid()
      ensures r.Err? <==> FilterOf(q).since.Some? && cfg.reflex.parse(FilterOf(q).since.value).None?
      ensures r.Ok? ==> AnswerOf(cfg, Current(), q, fetched, r.value)
    {
      hide R.Collected, MatchesFilter, RankScore, NotBelow, FilteredLog;
      var found := reflex.Filter(ReflexFilterOf(q));
      if found.Err? { return Err(found.error); }
      var candidates := found.value;
      if candidates == [] {
        candidates := ScanLog(logs, q.world, FilterOf(q).(world := Some(q.world)));
      }
      if !(QUARANTINE <= q.world) {
        candidates := Keep((a: Atom) => !(QUARANTINE <= a.world), candidates);
      }
      candidates := candidates + fetched;
      if candidates == [] {
        candidates := ScanLog(logs, q.world, FilterOf(q));
        if |candidates| > SCAN_LIMIT { candidates := candidates[..SCAN_LIMIT]; }
      }
      assert candidates == Candidates(logs, q, found.value, fetched);
      candidates := Deduplicated(candidates, {});
      candidates := SortBy(AnswerOrder(cfg.ranking, conflicts.State()), candidates);
      return Ok(candidates);
    }
  }

  // ---------------------------------------------------------------- ingest converges

  ghost predicate InSomeLog(logs: Logs, a: Atom) {
    exists w :: w in logs && a in logs[w]
  }

  ghost predicate WellFiled(logs: Logs) {
    forall w, a :: w in logs && a in logs[w] ==> a.world == w
  }

  /** Equal ids mean equal atoms, among the stored ones and the incoming ones. */
  ghost predicate Consistent(logs: Logs, atoms: seq<Atom>) {
    && (forall a, b :: InSomeLog(logs, a) && InSomeLog(logs, b) && a.id == b.id ==> a == b)
    && (forall a, b :: InSomeLog(logs, a) && b in atoms && a.id == b.id ==> a == b)
    && (forall a, b :: a in atoms && b in atoms && a.id == b.id ==> a == b)
  }

  ghost predicate AllParse(cfg: Config, atoms: seq<Atom>) {
    forall a :: a in atoms ==> cfg.reflex.Parses(a)
  }

  lemma StoredIffInLog(logs: Logs, id: AtomId)
    ensures Stored(logs, id) <==> exists a :: InSomeLog(logs, a) && a.id == id
  {
    if Stored(logs, id) {
      var w :| w in logs && exists i :: 0 <= i < |logs[w]| && logs[w][i].id == id;
      var i :| 0 <= i < |logs[w]| && logs[w][i].id == id;
      assert logs[w][i] in logs[w];
      assert InSomeLog(logs, logs[w][i]);
    }
    if a :| InSomeLog(logs, a) && a.id == id {
      var w :| w in logs && a in logs[w];
      var i :| 0 <= i < |logs[w]| && logs[w][i] == a;
    }
  }

  lemma AdmitAdds(cfg: Config, s: State, a: Atom)
    requires WellFiled(s.logs)
    ensures WellFiled(Admit(cfg, s, a).logs)
    ensures forall b :: InSomeLog(Admit(cfg, s, a).logs, b) <==> InSomeLog(s.logs, b) || b == a
    ensures LogOf(Admit(cfg, s, a).logs, a.world) == LogOf(s.logs, a.world) + [a]
    ensures forall w :: w != a.world ==> LogOf(Admit(cfg, s, a).logs, w) == LogOf(s.logs, w)
  {
    hide Register, R.Inserted;
    var s' := Admit(cfg, s, a);
    assert a in s'.logs[a.world];
    forall b
      ensures InSomeLog(s'.logs, b) <==> InSomeLog(s.logs, b) || b == a
    {
      if InSomeLog(s.logs, b) {
        var w :| w in s.logs && b in s.logs[w];
        assert b in s'.logs[w];
      }
    }
  }

  /** Ids are carried at most once in the whole store. */
  ghost predicate OnceEach(logs: Logs) {
    && (forall w :: w in logs ==> UniqueIds(logs[w]))
    && (forall a, b :: InSomeLog(logs, a) && InSomeLog(logs, b) && a.id == b.id ==> a == b)
  }

  lemma AdmitOnce(cfg: Config, s: State, a: Atom)
    requires WellFiled(s.logs) && OnceEach(s.logs) && !Stored(s.logs, a.id)
    ensures OnceEach(Admit(cfg, s, a).logs)
  {
    hide Stored, Admit, InSomeLog, UniqueIds, WellFiled, LogOf;
    var s' := Admit(cfg, s, a);
    AdmitAdds(cfg, s, a);
    StoredIffInLog(s.logs, a.id);
    forall w | w in s'.logs
      ensures UniqueIds(s'.logs[w])
    {
      AdmitUnique(cfg, s, a, w);
    }
  }

  lemma AdmitUnique(cfg: Config, s: State, a: Atom, w: WorldKey)
    requires OnceEach(s.logs) && !Stored(s.logs, a.id) && w in Admit(cfg, s, a).logs
    ensures UniqueIds(Admit(cfg, s, a).logs[w])
  {
    hide Stored, Register, R.Inserted, InSomeLog;
    if w == a.world {
      var log := LogOf(s.logs, w);
      StoredIffInLog(s.logs, a.id);
      forall i | 0 <= i < |log| ensures log[i].id != a.id {
        assert log[i] in log;
        FiledInSome(s.logs, w, log[i]);
      }
    }
  }

  lemma FiledInSome(logs: Logs, w: WorldKey, a: Atom)
    requires a in LogOf(logs, w)
    ensures InSomeLog(logs, a)
  {
  }

  /** What one admission does to the stored ids, and to the assumption about the rest of the batch. */
  lemma AdmitForBatch(cfg: Config, s: State, a: Atom, rest: seq<Atom>)
    requires WellFiled(s.logs) && Consistent(s.logs, [a] + rest)
    ensures WellFiled(Admit(cfg, s, a).logs) && Consistent(Admit(cfg, s, a).logs, rest)
    ensures forall b :: InSomeLog(Admit(cfg, s, a).logs, b) <==> InSomeLog(s.logs, b) || b == a
    ensures forall id :: Stored(Admit(cfg, s, a).logs, id) <==> Stored(s.logs, id) || id == a.id
  {
    hide Admit, Stored, InSomeLog, WellFiled, Consistent;
    AdmitAdds(cfg, s, a);
    AdmitStays(cfg, s, a, rest);
    forall id
      ensures Stored(Admit(cfg, s, a).logs, id) <==> Stored(s.logs, id) || id == a.id
    {
      StoredIffInLog(s.logs, id);
      StoredIffInLog(Admit(cfg, s, a).logs, id);
    }
  }

  lemma ConsistentTail(logs: Logs, a: Atom, rest: seq<Atom>)
    requires Consistent(logs, [a] + rest)
    ensures Consistent(logs, rest)
    ensures Stored(logs, a.id) ==> InSomeLog(logs, a)
  {
    hide InSomeLog, Stored;
    assert a in [a] + rest && forall b :: b in rest ==> b in [a] + rest;
    StoredIffInLog(logs, a.id);
  }

  lemma ConsistentSame(logs: Logs, atoms: seq<Atom>, a: Atom, b: Atom)
    requires Consistent(logs, atoms) && a in atoms && b in atoms && a.id == b.id
    ensures a == b
  {
  }

  /** Ingesting stores exactly the old atoms and the new ones, each id once however often it comes. */
  lemma {:induction false} IngestStores(cfg: Config, s: State, atoms: seq<Atom>)
    requires WellFiled(s.logs) && OnceEach(s.logs) && Consistent(s.logs, atoms) && AllParse(cfg, atoms)
    ensures var r := Ingest(cfg, s, atoms);
            && r.ok && WellFiled(r.state.logs) && OnceEach(r.state.logs)
            && (forall a :: InSomeLog(r.state.logs, a) <==> InSomeLog(s.logs, a) || a in atoms)
    decreases |atoms|
  {
    hide Admit, Stored, InSomeLog, OnceEach, WellFiled, Consistent;
    if atoms != [] {
      var a := atoms[0];
      var rest := atoms[1..];
      assert atoms == [a] + rest;
      ConsistentTail(s.logs, a, rest);
      if Stored(s.logs, a.id) {
        IngestStores(cfg, s, rest);
      } else {
        AdmitForBatch(cfg, s, a, rest);
        AdmitOnce(cfg, s, a);
        IngestStores(cfg, Admit(cfg, s, a), rest);
      }
    }
  }

  /** It reports exactly the ids that were not stored before, each once. */
  lemma {:induction false} IngestReports(cfg: Config, s: State, atoms: seq<Atom>)
    requires WellFiled(s.logs) && Consistent(s.logs, atoms) && AllParse(cfg, atoms)
    ensures var ids := Ingest(cfg, s, atoms).ids;
            && (forall id :: id in ids <==> !Stored(s.logs, id) && CarriesId(atoms, id))
            && Distinct(ids)
    decreases |atoms|
  {
    hide Admit, Stored, InSomeLog, WellFiled, Consistent, CarriesId;
    if atoms == [] {
      CarriesNothing();
    } else {
      var a := atoms[0];
      var rest := atoms[1..];
      assert atoms == [a] + rest;
      ConsistentTail(s.logs, a, rest);
      CarriesCons(a, rest);
      if Stored(s.logs, a.id) {
        IngestReports(cfg, s, rest);
      } else {
        AdmitForBatch(cfg, s, a, rest);
        IngestReports(cfg, Admit(cfg, s, a), rest);
        var more := Ingest(cfg, Admit(cfg, s, a), rest).ids;
        assert forall j :: 0 <= j < |more| ==> more[j] in more;
      }
    }
  }

  lemma CarriesNothing()
    ensures forall id :: !CarriesId([], id)
  {
  }

  lemma CarriesCons(a: Atom, rest: seq<Atom>)
    ensures forall id :: CarriesId([a] + rest, id) <==> id == a.id || CarriesId(rest, id)
  {
    assert a in [a] + rest && forall b :: b in rest ==> b in [a] + rest;
  }

  lemma AdmitStays(cfg: Config, s: State, a: Atom, rest: seq<Atom>)
    requires WellFiled(s.logs) && Consistent(s.logs, [a] + rest)
    ensures Consistent(Admit(cfg, s, a).logs, rest)
  {
    hide Admit, InSomeLog, WellFiled;
    AdmitAdds(cfg, s, a);
    assert a in [a] + rest && forall b :: b in rest ==> b in [a] + rest;
  }

  /**
   Convergence: two ways of delivering the same atoms, in any order, batching and repetition, store
   the same set; each id is stored once; delivering again changes nothing and reports nothing.
   */
  lemma IngestConverges(cfg: Config, s: State, one: seq<Atom>, other: seq<Atom>)
    requires WellFiled(s.logs) && OnceEach(s.logs) && Consistent(s.logs, one) && AllParse(cfg, one)
    requires forall a :: a in one <==> a in other
    ensures var x := Ingest(cfg, s, one).state;
            var y := Ingest(cfg, s, other).state;
            && (forall a :: InSomeLog(x.logs, a) <==> InSomeLog(y.logs, a))
            && OnceEach(x.logs) && OnceEach(y.logs)
            && Ingest(cfg, x, other) == Ingested(x, [], true)
  {
    hide InSomeLog, OnceEach, WellFiled, Stored, Admit;
    IngestStores(cfg, s, one);
    IngestStores(cfg, s, other);
    var x := Ingest(cfg, s, one).state;
    forall a | a in other
      ensures Stored(x.logs, a.id)
    {
      StoredIffInLog(x.logs, a.id);
      assert InSomeLog(x.logs, a);
    }
    NothingNew(cfg, x, other);
  }

  lemma {:induction false} NothingNew(cfg: Config, s: State, atoms: seq<Atom>)
    requires forall a :: a in atoms ==> Stored(s.logs, a.id)
    ensures Ingest(cfg, s, atoms) == Ingested(s, [], true)
    decreases |atoms|
  {
    hide Stored, Admit;
    if atoms != [] {
      assert atoms[0] in atoms && forall a :: a in atoms[1..] ==> a in atoms;
      NothingNew(cfg, s, atoms[1..]);
    }
  }

  /** Batches may be cut anywhere: ingesting in two parts is ingesting the whole. */
  lemma {:induction false} IngestInParts(cfg: Config, s: State, x: seq<Atom>, y: seq<Atom>)
    requires Ingest(cfg, s, x).ok
    ensures var first := Ingest(cfg, s, x);
            var second := Ingest(cfg, first.state, y);
            Ingest(cfg, s, x + y) == second.(ids := first.ids + second.ids)
    decreases |x|
  {
    hide Stored, Admit;
    if x == [] {
      assert x + y == y;
      var second := Ingest(cfg, s, y);
      assert [] + second.ids == second.ids;
    } else {
      assert (x + y)[0] == x[0] && (x + y)[1..] == x[1..] + y;
      if Stored(s.logs, x[0].id) {
        IngestInParts(cfg, s, x[1..], y);
      } else {
        var s' := Admit(cfg, s, x[0]);
        IngestInParts(cfg, s', x[1..], y);
        var first := Ingest(cfg, s', x[1..]);
        var second := Ingest(cfg, first.state, y);
        assert [x[0].id] + (first.ids + second.ids) == ([x[0].id] + first.ids) + second.ids;
      }
    }
  }

  /** A batch goes through exactly when every atom not stored already has a readable timestamp. */
  lemma {:induction false} IngestSucceedsExactly(cfg: Config, s: State, atoms: seq<Atom>)
    requires WellFiled(s.logs) && Consistent(s.logs, atoms)
    ensures Ingest(cfg, s, atoms).ok <==> forall a :: a in atoms ==> Stored(s.logs, a.id) || cfg.reflex.Parses(a)
    decreases |atoms|
  {
    hide Admit, Stored, InSomeLog, WellFiled, Consistent;
    if atoms != [] {
      var a := atoms[0];
      var rest := atoms[1..];
      assert atoms == [a] + rest && a in atoms;
      ConsistentTail(s.logs, a, rest);
      if Stored(s.logs, a.id) {
        IngestSucceedsExactly(cfg, s, rest);
      } else if cfg.reflex.Parses(a) {
        AdmitForBatch(cfg, s, a, rest);
        IngestSucceedsExactly(cfg, Admit(cfg, s, a), rest);
        forall b | b in rest && b.id == a.id
          ensures b == a
        {
          ConsistentSame(s.logs, atoms, a, b);
        }
      }
    }
  }

  // ---------------------------------------------------------------- answers are sound

  datatype Op = RememberOp(atom: Atom) | IngestOp(atoms: seq<Atom>) | GcOp(visit: set<WorldKey>, clock: int)

  /** A run: the state, and every atom ever appended to a log, in order. */
  datatype Run = Run(state: State, appended: seq<Atom>)

  /** The atoms an ingest appends: those it reports, and the one with a bad timestamp it stops at. */
  function IngestAppends(cfg: Config, s: State, atoms: seq<Atom>): seq<Atom>
    decreases |atoms|
  {
    if atoms == [] then []
    else if Stored(s.logs, atoms[0].id) then IngestAppends(cfg, s, atoms[1..])
    else if !cfg.reflex.Parses(atoms[0]) then [atoms[0]]
    else [atoms[0]] + IngestAppends(cfg, Admit(cfg, s, atoms[0]), atoms[1..])
  }

  function Perform(cfg: Config, r: Run, op: Op): Run {
    match op
    case RememberOp(a) => Run(Admit(cfg, r.state, a), r.appended + [a])
    case IngestOp(atoms) =>
      Run(Ingest(cfg, r.state, atoms).state, r.appended + IngestAppends(cfg, r.state, atoms))
    case GcOp(visit, clock) =>
      Run(r.state.(logs := Gc.Collected(cfg.parsers, r.state.logs, clock, visit)), r.appended)
  }

  function RunAll(cfg: Config, ops: seq<Op>): Run {
    if ops == [] then Run(EMPTY, []) else Perform(cfg, RunAll(cfg, ops[..|ops| - 1]), ops[|ops| - 1])
  }

  ghost predicate AppendedTo(appended: seq<Atom>, w: WorldKey, a: Atom) { a in appended && a.world == w }

  ghost predicate LogsGrounded(logs: Logs, appended: seq<Atom>) {
    forall w, a :: a in LogOf(logs, w) ==> AppendedTo(appended, w, a)
  }

  ghost predicate VectorsGrounded(vectors: map<WorldKey, set<AtomId>>, appended: seq<Atom>) {
    forall w, id :: id in VectorsOf(vectors, w) ==> exists a :: AppendedTo(appended, w, a) && a.id == id
  }

  ghost predicate IndexGrounded(index: R.Index, appended: seq<Atom>) {
    forall w, b, a :: a in R.Content(index, w, b) ==> AppendedTo(appended, w, a)
  }

  /** The reflex and conflict indexes are those of the published atoms. */
  ghost predicate Derived(cfg: Config, s: State) {
    s.index == R.Inserts(cfg.reflex, s.published) && s.conflicts == RegisterAll(s.published)
  }

  /** Everything the state knows was once appended to the world it is filed under. */
  ghost predicate Grounded(cfg: Config, s: State, appended: seq<Atom>) {
    && LogsGrounded(s.logs, appended) && VectorsGrounded(s.vectors, appended) && IndexGrounded(s.index, appended)
    && Derived(cfg, s)
  }

  lemma AdmitDerived(cfg: Config, s: State, a: Atom)
    requires Derived(cfg, s)
    ensures Derived(cfg, Admit(cfg, s, a))
  {
    hide Register, R.Inserted;
    assert (s.published + [a])[..|s.published|] == s.published;
  }

  lemma AdmitIndexGrounded(cfg: Config, s: State, appended: seq<Atom>, a: Atom)
    requires IndexGrounded(s.index, appended)
    ensures IndexGrounded(Admit(cfg, s, a).index, appended + [a])
  {
    hide Register, R.Content, R.Inserted;
    if cfg.reflex.Parses(a) { R.ContentAfterInsert(cfg.reflex, s.index, a); }
  }

  lemma AdmitVectorsGrounded(cfg: Config, s: State, appended: seq<Atom>, a: Atom)
    requires VectorsGrounded(s.vectors, appended)
    ensures VectorsGrounded(Admit(cfg, s, a).vectors, appended + [a])
  {
    hide Register, R.Inserted;
    var s' := Admit(cfg, s, a);
    var all := appended + [a];
    assert AppendedTo(all, a.world, a);
    forall w, id | id in VectorsOf(s'.vectors, w)
      ensures exists b :: AppendedTo(all, w, b) && b.id == id
    {
      if id in VectorsOf(s.vectors, w) {
        var b :| AppendedTo(appended, w, b) && b.id == id;
        assert AppendedTo(all, w, b);
      }
    }
  }

  lemma AdmitGrounded(cfg: Config, s: State, appended: seq<Atom>, a: Atom)
    requires Grounded(cfg, s, appended)
    ensures Grounded(cfg, Admit(cfg, s, a), appended + [a])
  {
    hide Register, R.Inserted, VectorsGrounded, IndexGrounded, Derived;
    forall w, b | b in LogOf(Admit(cfg, s, a).logs, w)
      ensures AppendedTo(appended + [a], w, b)
    {
      assert b in LogOf(s.logs, w) || (b == a && w == a.world);
    }
    AdmitDerived(cfg, s, a);
    AdmitIndexGrounded(cfg, s, appended, a);
    AdmitVectorsGrounded(cfg, s, appended, a);
  }

  lemma {:induction false} IngestGrounded(cfg: Config, s: State, appended: seq<Atom>, atoms: seq<Atom>)
    requires Grounded(cfg, s, appended)
    ensures Grounded(cfg, Ingest(cfg, s, atoms).state, appended + IngestAppends(cfg, s, atoms))
    decreases |atoms|
  {
    hide Grounded, Admit, Stored;
    if atoms == [] {
      assert appended + [] == appended;
    } else if Stored(s.logs, atoms[0].id) {
      IngestGrounded(cfg, s, appended, atoms[1..]);
    } else {
      AdmitGrounded(cfg, s, appended, atoms[0]);
      if cfg.reflex.Parses(atoms[0]) {
        var more := IngestAppends(cfg, Admit(cfg, s, atoms[0]), atoms[1..]);
        IngestGrounded(cfg, Admit(cfg, s, atoms[0]), appended + [atoms[0]], atoms[1..]);
        assert appended + [atoms[0]] + more == appended + ([atoms[0]] + more);
      }
    }
  }

  lemma GcGrounded(cfg: Config, s: State, appended: seq<Atom>, visit: set<WorldKey>, clock: int)
    requires Grounded(cfg, s, appended)
    ensures Grounded(cfg, s.(logs := Gc.Collected(cfg.parsers, s.logs, clock, visit)), appended)
  {
    hide VectorsGrounded, IndexGrounded;
    forall w, a | a in LogOf(Gc.Collected(cfg.parsers, s.logs, clock, visit), w)
      ensures AppendedTo(appended, w, a)
    {
      Gc.CollectedIsSubset(cfg.parsers, s.logs, clock, visit, w, a);
    }
  }

  lemma {:induction false} RunGrounded(cfg: Config, ops: seq<Op>)
    ensures Grounded(cfg, RunAll(cfg, ops).state, RunAll(cfg, ops).appended)
  {
    hide Grounded, Admit, Ingest, IngestAppends;
    if ops == [] {
      EmptyGrounded(cfg);
    } else {
      var r := RunAll(cfg, ops[..|ops| - 1]);
      RunGrounded(cfg, ops[..|ops| - 1]);
      match ops[|ops| - 1] {
        case RememberOp(a) => AdmitGrounded(cfg, r.state, r.appended, a);
        case IngestOp(atoms) => IngestGrounded(cfg, r.state, r.appended, atoms);
        case GcOp(visit, clock) => GcGrounded(cfg, r.state, r.appended, visit, clock);
      }
    }
  }

  lemma EmptyGrounded(cfg: Config)
    ensures Grounded(cfg, EMPTY, [])
  {
  }

  /** Every candidate was once appended to the world asked about. */
  lemma CandidatesSound(
    cfg: Config, s: State, appended: seq<Atom>, q: Question, hits: seq<Atom>, fetched: seq<Atom>, a: Atom)
    requires Grounded(cfg, s, appended) && OneAtomPerId(appended) && Fetchable(s, q, fetched)
    requires R.Collected(cfg.reflex, s.index, ReflexFilterOf(q), SinceOf(cfg, q), hits, {})
    requires a in Candidates(s.logs, q, hits, fetched)
    ensures a in appended && a.world == q.world
  {
    hide R.Content, R.Collected, Candidates, ReflexFilterOf, SinceOf;
    CandidateSources(s.logs, q, hits, fetched, a);
    if a in fetched {
      var w :| a in LogOf(s.logs, w);
      var b :| AppendedTo(appended, q.world, b) && b.id == a.id;
      assert AppendedTo(appended, w, a);
    } else if a in hits {
      HitsInWorld(cfg, s, q, hits, a);
    }
  }

  lemma CandidateSources(logs: Logs, q: Question, hits: seq<Atom>, fetched: seq<Atom>, a: Atom)
    requires a in Candidates(logs, q, hits, fetched)
    ensures a in hits || a in fetched || a in LogOf(logs, q.world)
  {
    hide MatchesFilter;
  }

  lemma HitsInWorld(cfg: Config, s: State, q: Question, hits: seq<Atom>, a: Atom)
    requires R.Collected(cfg.reflex, s.index, ReflexFilterOf(q), SinceOf(cfg, q), hits, {}) && a in hits
    ensures a.world == q.world && a in R.Content(s.index, a.world, cfg.reflex.BucketOf(a))
  {
    hide R.Kept, R.Content, R.Config.BucketOf;
    assert a in R.Within(cfg.reflex, hits, a.world, cfg.reflex.BucketOf(a));
  }

  /**
   Soundness of answers, over any run in which no id stands for two different atoms (though an atom
   may be collected and delivered again, any number of times): an answer lists pairwise distinct
   atoms that were all once appended to the world asked about, in answer order. In particular none
   comes from a quarantine world unless that world was asked about.
   */
  lemma AskIsSound(cfg: Config, ops: seq<Op>, q: Question, fetched: seq<Atom>, answer: seq<Atom>)
    requires OneAtomPerId(RunAll(cfg, ops).appended)
    requires Fetchable(RunAll(cfg, ops).state, q, fetched)
    requires AnswerOf(cfg, RunAll(cfg, ops).state, q, fetched, answer)
    ensures UniqueIds(answer)
    ensures forall a :: a in answer ==> a in RunAll(cfg, ops).appended && a.world == q.world
    ensures SortedBy(AnswerOrder(cfg.ranking, RegisterAll(RunAll(cfg, ops).state.published)), answer)
  {
    hide Grounded, RunAll, Candidates, Fetchable, R.Collected, Ranked, AnswerOrder, RankScore;
    var r := RunAll(cfg, ops);
    RunGrounded(cfg, ops);
    GroundedConflicts(cfg, r.state, r.appended);
    var hits :| R.Collected(cfg.reflex, r.state.index, ReflexFilterOf(q), SinceOf(cfg, q), hits, {})
                && answer == Ranked(cfg.ranking, r.state.conflicts, Candidates(r.state.logs, q, hits, fetched));
    RankedMeaning(cfg.ranking, r.state.conflicts, Candidates(r.state.logs, q, hits, fetched));
    forall a | a in answer
      ensures a in r.appended && a.world == q.world
    {
      CandidatesSound(cfg, r.state, r.appended, q, hits, fetched, a);
    }
  }

  lemma GroundedConflicts(cfg: Config, s: State, appended: seq<Atom>)
    requires Grounded(cfg, s, appended)
    ensures s.conflicts == RegisterAll(s.published)
  {
  }
}
