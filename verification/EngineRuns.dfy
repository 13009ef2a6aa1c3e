/**
 Whole runs of the engine on the key/value store: remembering, ingesting, collecting, and asking.
 Each step is a relation on the flat map alone; over every run the map represents the engine's logs.
 */
module EngineRuns {
  import opened Prelude
  import opened Atoms
  import opened Sorting
  import opened SledKeys
  import opened SledStore
  import opened SledLogs
  import opened SledIndex
  import opened EngineStore
  import opened EngineCollect
  import P = Policy
  import C = Conflicts
  import Gc
  import E = Engine

  /** The callers' side of one engine step on the store: fresh ids, plain worlds, room for numbers. */
  ghost predicate Allowed(c: Codec, db: Db, op: E.Op) {
    match op
    case RememberOp(a) => Room(db, [a]) && !LoggedAnywhere(c, db, a.id)
    case IngestOp(atoms) => Room(db, atoms)
    case GcOp(visit, clock) => forall w :: w in visit ==> Plain(w)
  }

  /**
   What one engine step does to the store. A collection has its worlds in any order; one that a panic
   cuts short is the step of the worlds it got through.
   */
  ghost predicate Step(c: Codec, cfg: E.Config, db: Db, op: E.Op, db': Db) {
    match op
    case RememberOp(a) => db' == Append(c, db, a.world, [a])
    case IngestOp(atoms) => db' == StoreIngest(c, cfg, db, atoms)
    case GcOp(visit, clock) =>
      exists todo :: Distinct(todo) && WorldSet(todo) == visit && Pass(c, cfg.parsers, clock, todo, db, db')
  }

  ghost predicate Run(c: Codec, cfg: E.Config, ops: seq<E.Op>, dbs: seq<Db>) {
    && |dbs| == |ops| + 1 && dbs[0] == map[]
    && forall i :: 0 <= i < |ops| ==> Allowed(c, dbs[i], ops[i]) && Step(c, cfg, dbs[i], ops[i], dbs[i + 1])
  }

  lemma StepRefines(c: Codec, cfg: E.Config, db: Db, r: E.Run, op: E.Op, db': Db)
    requires c.RoundTrips() && Intact(c, db) && Represents(c, db, r.state.logs)
    requires Allowed(c, db, op) && Step(c, cfg, db, op, db')
    ensures Intact(c, db') && Represents(c, db', E.Perform(cfg, r, op).state.logs)
  {
    hide Intact, Represents, Plain, Append, StoreIngest, Room, LoggedAnywhere, Pass, Gc.Collected, E.Ingest,
         E.IngestAppends, WorldSet;
    match op {
      case RememberOp(a) =>
        FirstHasRoom(db, [a]);
        AppendRefines(c, db, r.state.logs, a);
        AdmitLogs(cfg, r.state, a);
      case IngestOp(atoms) => IngestRefines(c, cfg, db, r.state, atoms);
      case GcOp(visit, clock) =>
        var todo :| Distinct(todo) && WorldSet(todo) == visit && Pass(c, cfg.parsers, clock, todo, db, db');
        IntactHasLogs(c, db);
        UniqueRepresented(c, db, r.state.logs);
        Gc.NothingCollected(cfg.parsers, r.state.logs, clock);
        WorldSetStep({}, todo);
        PassRefines(c, cfg.parsers, r.state.logs, clock, {}, todo, db, db');
        assert {} + visit == visit;
    }
  }

  /**
   Refinement over whole runs: remembering, ingesting and collecting on the flat store keep it intact
   and keep it representing the engine's logs, so what is proved of those logs holds of the store.
   */
  lemma {:induction false} RunRefines(c: Codec, cfg: E.Config, ops: seq<E.Op>, dbs: seq<Db>)
    requires c.RoundTrips() && Run(c, cfg, ops, dbs)
    ensures Intact(c, dbs[|ops|]) && Represents(c, dbs[|ops|], E.RunAll(cfg, ops).state.logs)
  {
    hide Intact, Represents, Allowed, Step, E.Perform;
    if ops == [] {
      EmptyIntact(c);
    } else {
      var n := |ops| - 1;
      RunRefines(c, cfg, ops[..n], dbs[..n + 1]);
      StepRefines(c, cfg, dbs[n], E.RunAll(cfg, ops[..n]), ops[n], dbs[n + 1]);
    }
  }

  /** At any point of any such run: scans and lookups by id on the store answer from the engine's logs. */
  lemma ReadsOfRun(c: Codec, cfg: E.Config, ops: seq<E.Op>, dbs: seq<Db>, w: WorldKey, f: AtomFilter, id: AtomId)
    requires c.RoundTrips() && Run(c, cfg, ops, dbs) && Plain(w)
    ensures var logs := E.RunAll(cfg, ops).state.logs;
            && Scan(c, dbs[|ops|], w, f) == Ok(E.ScanLog(logs, w, f))
            && (Lookup(c, dbs[|ops|], id) != Ok(None) <==> E.Stored(logs, id))
  {
    hide Intact, Represents, Plain, Lookup, Scan, E.RunAll, E.ScanLog, E.Stored;
    RunRefines(c, cfg, ops, dbs);
    StoredIsLookup(c, dbs[|ops|], E.RunAll(cfg, ops).state.logs, id);
    IntactHasLogs(c, dbs[|ops|]);
    ScanIsLog(c, dbs[|ops|], E.RunAll(cfg, ops).state.logs, w, f);
  }

  // ---------------------------------------------------------------- asking

  /** What a fetch by ids brings back was looked up under one of them. */
  lemma {:induction false} FetchedAreFound(c: Codec, db: Db, ids: seq<AtomId>, a: Atom)
    requires GetByIds(c, db, ids).Ok? && a in GetByIds(c, db, ids).value
    ensures exists id :: id in ids && Lookup(c, db, id) == Ok(Some(a))
  {
    hide Lookup;
    if ids != [] {
      var rest := GetByIds(c, db, ids[1..]);
      if a in rest.value {
        FetchedAreFound(c, db, ids[1..], a);
        var id :| id in ids[1..] && Lookup(c, db, id) == Ok(Some(a));
        assert id in ids;
      } else {
        assert ids[0] in ids;
      }
    }
  }

  /** In an intact store a fetch by ids never fails. */
  lemma {:induction false} FetchSucceeds(c: Codec, db: Db, ids: seq<AtomId>)
    requires c.RoundTrips() && Intact(c, db)
    ensures GetByIds(c, db, ids).Ok?
  {
    hide Intact, Lookup;
    if ids != [] {
      LookupIsLog(c, db, ids[0]);
      FetchSucceeds(c, db, ids[1..]);
    }
  }

  /** Fetching upserted ids from the store brings back stored atoms of those ids. */
  lemma FetchedFromStore(c: Codec, s: E.State, db: Db, q: E.Question, ids: seq<AtomId>)
    requires c.RoundTrips() && Intact(c, db) && Represents(c, db, s.logs)
    requires forall id :: id in ids ==> id in E.VectorsOf(s.vectors, q.world)
    ensures GetByIds(c, db, ids).Ok? && E.Fetchable(s, q, GetByIds(c, db, ids).value)
  {
    hide Intact, Lookup, GetByIds, Log, Plain;
    FetchSucceeds(c, db, ids);
    var fetched := GetByIds(c, db, ids).value;
    forall a | a in fetched
      ensures a.id in E.VectorsOf(s.vectors, q.world) && exists w :: a in P.LogOf(s.logs, w)
    {
      FetchedAreFound(c, db, ids, a);
      var id :| id in ids && Lookup(c, db, id) == Ok(Some(a));
      LookupIsLog(c, db, id);
      var w :| Plain(w) && a in Log(c, db, w) && a.id == id;
      assert P.LogOf(s.logs, w) == Log(c, db, w);
    }
  }

  /**
   Soundness of answers with the fetch done on the store: whatever upserted ids vector search comes up
   with, at any point of any run in which no id stands for two different atoms, an answer lists
   pairwise distinct atoms that were all once appended to the world asked about, in answer order.
   */
  lemma AskOnStore(c: Codec, cfg: E.Config, ops: seq<E.Op>, dbs: seq<Db>, q: E.Question, ids: seq<AtomId>,
                   fetched: seq<Atom>, answer: seq<Atom>)
    requires c.RoundTrips() && Run(c, cfg, ops, dbs) && OneAtomPerId(E.RunAll(cfg, ops).appended)
    requires forall id :: id in ids ==> id in E.VectorsOf(E.RunAll(cfg, ops).state.vectors, q.world)
    requires GetByIds(c, dbs[|ops|], ids) == Ok(fetched)
    requires E.AnswerOf(cfg, E.RunAll(cfg, ops).state, q, fetched, answer)
    ensures UniqueIds(answer)
    ensures forall a :: a in answer ==> a in E.RunAll(cfg, ops).appended && a.world == q.world
    ensures SortedBy(C.AnswerOrder(cfg.ranking, C.RegisterAll(E.RunAll(cfg, ops).state.published)), answer)
  {
    hide Intact, Represents, E.RunAll, E.AnswerOf, E.Fetchable, GetByIds, C.AnswerOrder, UniqueIds;
    RunRefines(c, cfg, ops, dbs);
    FetchedFromStore(c, E.RunAll(cfg, ops).state, dbs[|ops|], q, ids);
    E.AskIsSound(cfg, ops, q, fetched, answer);
  }
}
