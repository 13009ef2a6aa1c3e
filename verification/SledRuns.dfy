/**
 Whole runs of the store. The flat map refines a plain one: a log per world, where an append adds,
 a deletion filters, a torn append followed by a reopen adds a prefix, a torn deletion followed by
 a reopen loses what `SledDelete` says, and a reopen does nothing.
 */
module SledRuns {
  import opened Prelude
  import opened OrderedMap
  import opened Atoms
  import opened SledKeys
  import opened SledStore
  import opened SledLogs
  import opened SledCrash
  import opened SledRepair
  import opened SledDelete
  import opened SledIndex

  datatype Op =
    | AppendOp(world: WorldKey, atoms: seq<Atom>)
    | DeleteOp(world: WorldKey, ids: seq<AtomId>)
    | TornOp(world: WorldKey, atoms: seq<Atom>, inserts: nat)  // crash after so many inserts, then reopen
    | TornDeleteOp(world: WorldKey, ids: seq<AtomId>, removals: nat)  // likewise for a deletion
    | TwiceTornOp(world: WorldKey, ids: seq<AtomId>, removals: nat, repairs: nat)  // and a crash in that reopen
    | ReopenOp

  /** The callers' side: batches are fresh in their world, and worlds have plain names. */
  ghost predicate Allowed(c: Codec, db: Db, op: Op) {
    match op
    case AppendOp(w, atoms) => FreshBatch(c, db, w, atoms)
    case DeleteOp(w, ids) => Plain(w)
    case TornOp(w, atoms, n) => FreshBatch(c, db, w, atoms) && n <= |AppendWrites(c, w, NextSeq(db, w), atoms)|
    case TornDeleteOp(w, ids, n) => '/' !in w && n <= |Removals(c, db, w, ids)|
    case TwiceTornOp(w, ids, n, p) =>
      '/' !in w && n <= |Removals(c, db, w, ids)|
      && TailHas(c, Without(db, Removals(c, db, w, ids)[..n]), w, p)
    case ReopenOp => true
  }

  /** At least `p` frames follow the good ones. */
  predicate TailHas(c: Codec, db: Db, w: WorldKey, p: nat) {
    var keys := ScanPrefix(db, LogPrefix(w));
    |GoodPrefix(c, db, w, keys)| + p <= |keys|
  }

  /** What one operation may do to the stored map. */
  ghost predicate Step(c: Codec, db: Db, op: Op, db': Db)
    requires Allowed(c, db, op)
  {
    match op
    case AppendOp(w, atoms) => db' == Append(c, db, w, atoms)
    case DeleteOp(w, ids) => db' == Delete(c, db, w, ids)
    case TornOp(w, atoms, n) => Reopened(c, Apply(db, AppendWrites(c, w, NextSeq(db, w), atoms)[..n]), db')
    case TornDeleteOp(w, ids, n) => Reopened(c, Without(db, Removals(c, db, w, ids)[..n]), db')
    case TwiceTornOp(w, ids, n, p) =>
      var cut := Without(db, Removals(c, db, w, ids)[..n]);
      Reopened(c, Without(cut, RepairStretch(c, cut, w, p)), db')
    case ReopenOp => Reopened(c, db, db')
  }

  /** A run from the empty store through the states `dbs`. */
  ghost predicate Run(c: Codec, ops: seq<Op>, dbs: seq<Db>) {
    && |dbs| == |ops| + 1 && dbs[0] == map[]
    && forall i :: 0 <= i < |ops| ==> Allowed(c, dbs[i], ops[i]) && Step(c, dbs[i], ops[i], dbs[i + 1])
  }

  /** The plain model: what one operation does to the log of world `v`. */
  function LogStep(op: Op, v: WorldKey, log: seq<Atom>): seq<Atom> {
    match op
    case AppendOp(w, atoms) => if v == w then log + atoms else log
    case DeleteOp(w, ids) => if v == w then Keep((a: Atom) => Survives(a, ids), log) else log
    case TornOp(w, atoms, n) =>
      if v == w then log + atoms[..if Landed(n) <= |atoms| then Landed(n) else |atoms|] else log
    case TornDeleteOp(w, ids, n) =>
      if v == w then UpToDead(DropFirst((a: Atom) => !Survives(a, ids), log, FramesGone(ids, n)), Dead(ids, n)) else log
    case TwiceTornOp(w, ids, n, p) => if v == w then AfterTwoCrashes(log, ids, n, p) else log
    case ReopenOp => log
  }

  function LogRun(ops: seq<Op>, v: WorldKey): seq<Atom> {
    if ops == [] then [] else LogStep(ops[|ops| - 1], v, LogRun(ops[..|ops| - 1], v))
  }

  lemma StepRefines(c: Codec, db: Db, op: Op, db': Db)
    requires c.RoundTrips() && LogInv(c, db) && Allowed(c, db, op) && Step(c, db, op, db')
    ensures LogInv(c, db')
    ensures forall v :: Plain(v) ==> Log(c, db', v) == LogStep(op, v, Log(c, db, v))
  {
    hide LogInv, Log, Plain, Reopened, NextSeq, HasId, Landed, Survives, UpToDead, DropFirst, Dead, FramesGone, Removals,
         AfterTwoCrashes, RepairStretch, GoodPrefix, Without;
    match op {
      case AppendOp(w, atoms) => WholeAppend(c, db, w, atoms);
      case DeleteOp(w, ids) => WholeDelete(c, db, w, ids);
      case TornOp(w, atoms, n) =>
        CrashRecovery(c, db, w, atoms, n, db');
        LandedStep([], atoms, n);
      case TornDeleteOp(w, ids, n) => CrashedDelete(c, db, w, ids, n, db');
      case TwiceTornOp(w, ids, n, p) => CrashedTwice(c, db, w, ids, n, p, db');
      case ReopenOp => ReopenKeepsLogs(c, db, db');
    }
  }

  lemma EmptyStore(c: Codec)
    ensures LogInv(c, map[]) && IndexInv(c, map[]) && GloballyUnique(c, map[])
    ensures forall v :: Log(c, map[], v) == []
  {
    forall v ensures ScanPrefix<Value>(map[], LogPrefix(v)) == [] {
      AscendingUnique(ScanPrefix<Value>(map[], LogPrefix(v)), []);
    }
  }

  /** Refinement over whole runs: at every point every log is what the plain model says. */
  lemma {:induction false} RunRefines(c: Codec, ops: seq<Op>, dbs: seq<Db>)
    requires c.RoundTrips() && Run(c, ops, dbs)
    ensures LogInv(c, dbs[|ops|])
    ensures forall v :: Plain(v) ==> Log(c, dbs[|ops|], v) == LogRun(ops, v)
  {
    hide LogInv, Log, Plain, Allowed, Step, LogStep;
    if ops == [] {
      EmptyStore(c);
    } else {
      var n := |ops| - 1;
      RunRefines(c, ops[..n], dbs[..n + 1]);
      StepRefines(c, dbs[n], ops[n], dbs[n + 1]);
    }
  }

  /** So a scan at any point of any run returns the modelled log, filtered and limited. */
  lemma ScanOfRun(c: Codec, ops: seq<Op>, dbs: seq<Db>, w: WorldKey, f: AtomFilter)
    requires c.RoundTrips() && Run(c, ops, dbs) && Plain(w)
    ensures Scan(c, dbs[|ops|], w, f) == Ok(FilteredLog(LogRun(ops, w), w, f))
  {
    RunRefines(c, ops, dbs);
    assert WorldInv(c, dbs[|ops|], w);
    ScanMeaning(c, dbs[|ops|], w, f);
  }

  // ---------------------------------------------------------------- the index over runs

  /** Freshness across worlds, and deletions that stay in their world. */
  ghost predicate AllowedGlobally(c: Codec, db: Db, op: Op) {
    match op
    case AppendOp(w, atoms) => forall a :: a in atoms ==> !LoggedAnywhere(c, db, a.id)
    case DeleteOp(w, ids) => OwnIds(c, db, w, ids)
    case TornOp(w, atoms, n) => forall a :: a in atoms ==> !LoggedAnywhere(c, db, a.id)
    case TornDeleteOp(w, ids, n) => true
    case TwiceTornOp(w, ids, n, p) => true
    case ReopenOp => true
  }

  predicate Undisturbed(op: Op) { op.AppendOp? || op.DeleteOp? }

  predicate SlashFreeOp(op: Op) { op.ReopenOp? || '/' !in op.world }

  /** Runs without crashes and reopens, in any worlds; or with them, in slash-free worlds. */
  ghost predicate Indexed(ops: seq<Op>) {
    (forall i :: 0 <= i < |ops| ==> Undisturbed(ops[i])) || (forall i :: 0 <= i < |ops| ==> SlashFreeOp(ops[i]))
  }

  lemma {:induction false} SlashedStayEmpty(ops: seq<Op>, v: WorldKey)
    requires '/' in v && forall i :: 0 <= i < |ops| ==> SlashFreeOp(ops[i])
    ensures LogRun(ops, v) == []
  {
    if ops != [] {
      var n := |ops| - 1;
      SlashedStayEmpty(ops[..n], v);
      assert SlashFreeOp(ops[n]);
    }
  }

  /** In a run over slash-free worlds, every logged world is slash-free. */
  lemma HeldAreSlashFree(c: Codec, ops: seq<Op>, dbs: seq<Db>)
    requires c.RoundTrips() && Run(c, ops, dbs) && forall i :: 0 <= i < |ops| ==> SlashFreeOp(ops[i])
    ensures forall e :: Holds(dbs[|ops|], e) ==> '/' !in e.0
  {
    hide Log, LogPrefix, Plain;
    RunRefines(c, ops, dbs);
    var db := dbs[|ops|];
    forall e | Holds(db, e)
      ensures '/' !in e.0
    {
      HoldsIsLogged(c, db, e);
      if '/' in e.0 { SlashedStayEmpty(ops, e.0); }
    }
  }

  /** A torn append of globally fresh ids, reopened, leaves ids globally unique; so does a reopen. */
  lemma ReopenKeepsUnique(c: Codec, db: Db, w: WorldKey, more: seq<Atom>, db': Db)
    requires LogInv(c, db) && GloballyUnique(c, db) && LogInv(c, db') && Plain(w)
    requires forall a :: a in more ==> !LoggedAnywhere(c, db, a.id)
    requires Log(c, db', w) == Log(c, db, w) + more
    requires forall v :: Plain(v) && v != w ==> Log(c, db', v) == Log(c, db, v)
    ensures GloballyUnique(c, db')
  {
    hide LogInv, GloballyUnique, Log, Plain;
    forall u, v, id | Plain(u) && Plain(v) && HasId(Log(c, db', u), id) && HasId(Log(c, db', v), id)
      ensures u == v
    {
      OldOrNew(c, db, w, more, db', u, id);
      OldOrNew(c, db, w, more, db', v, id);
      if u != v { UniqueInLogs(c, db, u, v, id); }
    }
    UniqueByLogs(c, db');
  }

  lemma OldOrNew(c: Codec, db: Db, w: WorldKey, more: seq<Atom>, db': Db, v: WorldKey, id: AtomId)
    requires Plain(v) && HasId(Log(c, db', v), id)
    requires forall a :: a in more ==> !LoggedAnywhere(c, db, a.id)
    requires Log(c, db', v) == if v == w then Log(c, db, w) + more else Log(c, db, v)
    ensures HasId(Log(c, db, v), id) || (v == w && !LoggedAnywhere(c, db, id))
    ensures HasId(Log(c, db, v), id) ==> LoggedAnywhere(c, db, id)
  {
    hide Log, Plain;
    var log := Log(c, db, v);
    var i :| 0 <= i < |Log(c, db', v)| && Log(c, db', v)[i].id == id;
    if i < |log| {
      assert log[i].id == id;
    } else {
      assert more[i - |log|] in more;
    }
  }

  /** A torn append with its reopen, in a store that ends up with slash-free worlds only. */
  lemma TornKeepsIndex(c: Codec, db: Db, w: WorldKey, atoms: seq<Atom>, n: nat, db': Db)
    requires c.RoundTrips() && LogInv(c, db) && GloballyUnique(c, db)
    requires FreshBatch(c, db, w, atoms) && n <= |AppendWrites(c, w, NextSeq(db, w), atoms)|
    requires Reopened(c, Apply(db, AppendWrites(c, w, NextSeq(db, w), atoms)[..n]), db')
    requires forall a :: a in atoms ==> !LoggedAnywhere(c, db, a.id)
    requires forall e :: Holds(db', e) ==> '/' !in e.0
    ensures IndexInv(c, db') && GloballyUnique(c, db')
  {
    hide LogInv, IndexInv, GloballyUnique, Log, Plain, NextSeq, LoggedAnywhere, Reopened, HasId, Holds;
    LandedStep([], atoms, n);
    CrashRecovery(c, db, w, atoms, n, db');
    assert forall a :: a in atoms[..Landed(n)] ==> a in atoms;
    ReopenKeepsUnique(c, db, w, atoms[..Landed(n)], db');
    ReopenRestoresIndex(c, Apply(db, AppendWrites(c, w, NextSeq(db, w), atoms)[..n]), db');
  }

  /** Losing atoms leaves ids globally unique. */
  lemma LossKeepsUnique(c: Codec, db: Db, db': Db)
    requires LogInv(c, db) && GloballyUnique(c, db) && LogInv(c, db')
    requires forall v, a :: Plain(v) && a in Log(c, db', v) ==> a in Log(c, db, v)
    ensures GloballyUnique(c, db')
  {
    hide LogInv, GloballyUnique, Log, Plain;
    forall v, id | Plain(v) && HasId(Log(c, db', v), id)
      ensures HasId(Log(c, db, v), id)
    {
      var i :| 0 <= i < |Log(c, db', v)| && Log(c, db', v)[i].id == id;
      assert Log(c, db', v)[i] in Log(c, db', v);
      var j :| 0 <= j < |Log(c, db, v)| && Log(c, db, v)[j] == Log(c, db', v)[i];
    }
    forall v, w, id | Plain(v) && Plain(w) && HasId(Log(c, db', v), id) && HasId(Log(c, db', w), id)
      ensures v == w
    {
      UniqueInLogs(c, db, v, w, id);
    }
    UniqueByLogs(c, db');
  }

  /** A torn deletion with its reopen, in a store that ends up with slash-free worlds only. */
  lemma TornDeleteKeepsIndex(c: Codec, db: Db, w: WorldKey, ids: seq<AtomId>, n: nat, db': Db)
    requires LogInv(c, db) && GloballyUnique(c, db) && '/' !in w && n <= |Removals(c, db, w, ids)|
    requires Reopened(c, Without(db, Removals(c, db, w, ids)[..n]), db')
    requires forall e :: Holds(db', e) ==> '/' !in e.0
    ensures IndexInv(c, db') && GloballyUnique(c, db')
  {
    hide LogInv, IndexInv, GloballyUnique, Log, Plain, Reopened, Holds, Removals, Dead, FramesGone, DropFirst, UpToDead;
    CrashedDelete(c, db, w, ids, n, db');
    var gone := (a: Atom) => !Survives(a, ids);
    var kept := DropFirst(gone, Log(c, db, w), FramesGone(ids, n));
    DropFirstSubset(gone, Log(c, db, w), FramesGone(ids, n));
    assert forall a :: a in UpToDead(kept, Dead(ids, n)) ==> a in kept;
    LossKeepsUnique(c, db, db');
    ReopenRestoresIndex(c, Without(db, Removals(c, db, w, ids)[..n]), db');
  }

  lemma TwiceTornKeepsIndex(c: Codec, db: Db, w: WorldKey, ids: seq<AtomId>, n: nat, p: nat, db': Db)
    requires LogInv(c, db) && GloballyUnique(c, db) && Allowed(c, db, TwiceTornOp(w, ids, n, p))
    requires Step(c, db, TwiceTornOp(w, ids, n, p), db')
    requires forall e :: Holds(db', e) ==> '/' !in e.0
    ensures IndexInv(c, db') && GloballyUnique(c, db')
  {
    hide LogInv, IndexInv, GloballyUnique, Log, Plain, Reopened, Holds, Removals, AfterTwoCrashes, RepairStretch, GoodPrefix, Without;
    CrashedTwice(c, db, w, ids, n, p, db');
    TwoCrashesLose(Log(c, db, w), ids, n, p);
    LossKeepsUnique(c, db, db');
    var cut := Without(db, Removals(c, db, w, ids)[..n]);
    ReopenRestoresIndex(c, Without(cut, RepairStretch(c, cut, w, p)), db');
  }

  lemma TwoCrashesLose(log: seq<Atom>, ids: seq<AtomId>, n: nat, p: nat)
    ensures forall a :: a in AfterTwoCrashes(log, ids, n, p) ==> a in log
  {
    hide UpToDead, DropFirst, Survives;
    DropFirstSubset((a: Atom) => !Survives(a, ids), log, FramesGone(ids, n));
  }

  lemma ReopenKeepsIndex(c: Codec, db: Db, db': Db)
    requires LogInv(c, db) && GloballyUnique(c, db) && Reopened(c, db, db')
    requires forall e :: Holds(db', e) ==> '/' !in e.0
    ensures IndexInv(c, db') && GloballyUnique(c, db')
  {
    hide LogInv, IndexInv, GloballyUnique, Log, Plain, NextSeq, LoggedAnywhere, Reopened, HasId, Holds;
    ReopenKeepsLogs(c, db, db');
    SlashFreeIsPlain("");
    assert Log(c, db, "") + [] == Log(c, db, "");
    ReopenKeepsUnique(c, db, "", [], db');
    ReopenRestoresIndex(c, db, db');
  }

  /** Over any such run the maintained index stays exact. */
  lemma {:induction false} RunKeepsIndex(c: Codec, ops: seq<Op>, dbs: seq<Db>)
    requires c.RoundTrips() && Run(c, ops, dbs) && Indexed(ops)
    requires forall i :: 0 <= i < |ops| ==> AllowedGlobally(c, dbs[i], ops[i])
    ensures LogInv(c, dbs[|ops|]) && IndexInv(c, dbs[|ops|]) && GloballyUnique(c, dbs[|ops|])
  {
    hide LogInv, IndexInv, GloballyUnique, Plain, NextSeq, LoggedAnywhere, Reopened, HasId, Holds, Log;
    RunRefines(c, ops, dbs);
    if ops == [] {
      EmptyStore(c);
    } else {
      var n := |ops| - 1;
      RunKeepsIndex(c, ops[..n], dbs[..n + 1]);
      RunRefines(c, ops[..n], dbs[..n + 1]);
      assert AllowedGlobally(c, dbs[n], ops[n]) && Allowed(c, dbs[n], ops[n]);
      if !Undisturbed(ops[n]) { HeldAreSlashFree(c, ops, dbs); }
      match ops[n] {
        case AppendOp(w, atoms) => AppendKeepsIndex(c, dbs[n], w, atoms);
        case DeleteOp(w, ids) => DeleteKeepsIndex(c, dbs[n], w, ids);
        case TornOp(w, atoms, k) => TornKeepsIndex(c, dbs[n], w, atoms, k, dbs[n + 1]);
        case TornDeleteOp(w, ids, k) => TornDeleteKeepsIndex(c, dbs[n], w, ids, k, dbs[n + 1]);
        case TwiceTornOp(w, ids, k, p) => TwiceTornKeepsIndex(c, dbs[n], w, ids, k, p, dbs[n + 1]);
        case ReopenOp => ReopenKeepsIndex(c, dbs[n], dbs[n + 1]);
      }
    }
  }

  /**
   The maintained index equals what a rebuild computes, in whatever order the worlds are visited,
   exactly when every logged world is slash-free.
   */
  lemma RunIndexIsRebuilt(c: Codec, ops: seq<Op>, dbs: seq<Db>, db': Db)
    requires c.RoundTrips() && Run(c, ops, dbs) && Indexed(ops)
    requires forall i :: 0 <= i < |ops| ==> AllowedGlobally(c, dbs[i], ops[i])
    requires Rebuilt(c, dbs[|ops|], db')
    ensures db' == dbs[|ops|] <==> forall e :: Holds(dbs[|ops|], e) ==> '/' !in e.0
  {
    RunKeepsIndex(c, ops, dbs);
    IncrementalIsRebuilt(c, dbs[|ops|], db');
  }
}
