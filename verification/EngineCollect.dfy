/**
 Garbage collection on the key/value store. Everything a pass decides on it reads by scanning the
 store: the atoms of the world, and the policy atoms of that world, of its policy world and of its
 tenant's policy world. The pass then does to the engine's logs what their own model says.
 */
module EngineCollect {
  import opened Prelude
  import opened Text
  import opened OrderedMap
  import opened Atoms
  import opened SledKeys
  import opened SledStore
  import opened SledStorage
  import opened SledLogs
  import opened SledRepair
  import opened EngineStore
  import P = Policy
  import Gc

  // ---------------------------------------------------------------- what a pass reads

  /** A scan without a filter; a scan that fails yields nothing. */
  function ReadAll(c: Codec, db: Db, w: WorldKey): seq<Atom> {
    match Scan(c, db, w, NO_FILTER)
    case Ok(atoms) => atoms
    case Err(_) => []
  }

  function ReadPolicyAtoms(c: Codec, db: Db, w: WorldKey): seq<Atom> {
    Keep((a: Atom) => a.world == w, ReadAll(c, db, w))
    + ReadAll(c, db, P.POLICY + w)
    + (match P.TenantPolicyWorld(w) case None => [] case Some(t) => ReadAll(c, db, t))
  }

  function ReadPolicy(c: Codec, ps: P.Parsers, db: Db, w: WorldKey): P.Policy {
    P.Settle(P.ApplyAtoms(ps, P.DEFAULT_POLICY, ReadPolicyAtoms(c, db, w)))
  }

  lemma NoFilterKeepsAll(log: seq<Atom>, w: WorldKey)
    ensures FilteredLog(log, w, NO_FILTER) == log
  {
    KeepAll((a: Atom) => MatchesFilter(a, NO_FILTER), log);
  }

  lemma ReadsLog(c: Codec, db: Db, w: WorldKey)
    requires LogInv(c, db) && Plain(w)
    ensures Scan(c, db, w, NO_FILTER).Ok? && ReadAll(c, db, w) == Log(c, db, w)
  {
    hide Log, LogPrefix, MatchesFilter, WorldInv;
    assert WorldInv(c, db, w);
    BodiesReadable(c, db, w);
    ScanMeaning(c, db, w, NO_FILTER);
    NoFilterKeepsAll(Log(c, db, w), w);
  }

  lemma BodiesReadable(c: Codec, db: Db, w: WorldKey)
    requires WorldInv(c, db, w)
    ensures BodiesDecode(c, db, w, ScanPrefix(db, LogPrefix(w)))
  {
    hide LogPrefix, AtomKey, Canonical;
  }

  // ---------------------------------------------------------------- policy worlds have plain names

  /** A name that a slash-free text is put in front of stays plain. */
  lemma PrefixedPlain(front: string, w: WorldKey)
    requires '/' !in front && Plain(w)
    ensures Plain(front + w)
  {
    PrefixedNoMarker(front, w, ATOMS);
    PrefixedNoMarker(front, w, LOG);
  }

  lemma PrefixedNoMarker(front: string, w: WorldKey, m: string)
    requires '/' !in front && m != [] && m[0] == '/' && !Occurs(m, w + "/")
    ensures !Occurs(m, front + w + "/")
  {
    var s, t := front + w + "/", w + "/";
    assert s == front + t;
    forall i
      ensures !OccursAt(m, s, i)
    {
      if 0 <= i && i + |m| <= |s| {
        assert s[i] == s[i..i + |m|][0];
        if i >= |front| {
          assert s[i..i + |m|] == t[i - |front|..i - |front| + |m|];
          assert !OccursAt(m, t, i - |front|);
        } else {
          assert s[i] == front[i];
        }
      }
    }
  }

  lemma TenantPolicyPlain(w: WorldKey)
    requires P.TenantPolicyWorld(w).Some?
    ensures Plain(P.TenantPolicyWorld(w).value)
  {
    var tenant := "tenant:" + UpTo(P.Strip(w, "tenant:").value, '/');
    PolicyTail(ATOMS);
    PolicyTail(LOG);
    PrefixedPlain(tenant, "/policy");
  }

  lemma PolicyTail(m: string)
    requires IsMarker(m)
    ensures !Occurs(m, "/policy" + "/")
  {
    var s := "/policy" + "/";
    assert s == "/policy/";
    forall i
      ensures !OccursAt(m, s, i)
    {
      if 0 <= i && i + |m| <= |s| {
        assert s[i] == s[i..i + |m|][0] && s[i + 1] == s[i..i + |m|][1];
      }
    }
  }

  /** What the store yields for a world's policy is the policy of the logs it represents. */
  lemma ReadsPolicy(c: Codec, ps: P.Parsers, db: Db, logs: P.Logs, w: WorldKey)
    requires LogInv(c, db) && Represents(c, db, logs) && Plain(w)
    ensures ReadPolicy(c, ps, db, w) == P.ParsePolicy(ps, logs, w)
  {
    hide LogInv, Log, Plain, ReadAll, P.Settle, P.ApplyAtoms;
    ReadsLog(c, db, w);
    PrefixedPlain(P.POLICY, w);
    ReadsLog(c, db, P.POLICY + w);
    if P.TenantPolicyWorld(w).Some? {
      TenantPolicyPlain(w);
      ReadsLog(c, db, P.TenantPolicyWorld(w).value);
    }
    assert ReadPolicyAtoms(c, db, w) == P.PolicyAtoms(logs, w);
  }

  // ---------------------------------------------------------------- one world's turn

  /** The ids of exactly the doomed atoms. */
  ghost predicate Chosen(ps: P.Parsers, p: P.Policy, atoms: seq<Atom>, clock: int, ids: seq<AtomId>) {
    forall id :: id in ids <==>
      exists a :: a in atoms && a.id == id && Gc.Doomed(ps, p, atoms, Gc.LatestTime(ps, atoms, clock), a)
  }

  lemma ChosenAreLogged(ps: P.Parsers, p: P.Policy, atoms: seq<Atom>, clock: int, ids: seq<AtomId>)
    requires Chosen(ps, p, atoms, clock, ids)
    ensures forall id :: id in ids ==> HasId(atoms, id)
  {
    hide Gc.Doomed, Gc.LatestTime;
    forall id | id in ids
      ensures HasId(atoms, id)
    {
      var a :| a in atoms && a.id == id;
      var i :| 0 <= i < |atoms| && atoms[i] == a;
    }
  }

  lemma ChosenExist(ps: P.Parsers, p: P.Policy, atoms: seq<Atom>, clock: int)
    ensures exists ids :: Chosen(ps, p, atoms, clock, ids)
  {
    hide Gc.Doomed, Gc.LatestTime;
    var now := Gc.LatestTime(ps, atoms, clock);
    var doomed := Keep((a: Atom) => Gc.Doomed(ps, p, atoms, now, a), atoms);
    var ids := Ids(doomed);
    forall id
      ensures id in ids <==> exists a :: a in atoms && a.id == id && Gc.Doomed(ps, p, atoms, now, a)
    {
      if id in ids {
        var i :| 0 <= i < |ids| && ids[i] == id;
        assert doomed[i] in doomed;
      }
      if a :| a in atoms && a.id == id && Gc.Doomed(ps, p, atoms, now, a) {
        var i :| 0 <= i < |doomed| && doomed[i] == a;
        assert ids[i] == id;
      }
    }
    assert Chosen(ps, p, atoms, clock, ids);
  }

  /** A world's turn panics, judged by what the store holds when it comes. */
  ghost predicate StorePanics(c: Codec, ps: P.Parsers, db: Db, w: WorldKey) {
    Gc.Panics(ps, ReadPolicy(c, ps, db, w), ReadAll(c, db, w))
  }

  /** A world's turn goes through, from `db` to `db'`. */
  ghost predicate Turn(c: Codec, ps: P.Parsers, clock: int, db: Db, w: WorldKey, db': Db) {
    && Scan(c, db, w, NO_FILTER).Ok? && !StorePanics(c, ps, db, w)
    && exists ids :: Chosen(ps, ReadPolicy(c, ps, db, w), ReadAll(c, db, w), clock, ids)
                     && db' == Delete(c, db, w, ids)
  }

  /** Reading on the store at any stage of a pass, in terms of the logs at its start. */
  lemma ReadsStart(c: Codec, db: Db, ps: P.Parsers, start: P.Logs, clock: int, done: set<WorldKey>, w: WorldKey)
    requires w !in done && Plain(w)
    requires Intact(c, db) && Represents(c, db, Gc.Collected(ps, start, clock, done))
    ensures Scan(c, db, w, NO_FILTER).Ok?
    ensures ReadAll(c, db, w) == Log(c, db, w) == P.LogOf(start, w)
    ensures ReadPolicy(c, ps, db, w) == P.ParsePolicy(ps, start, w)
    ensures StorePanics(c, ps, db, w) <==> Gc.PanicsIn(ps, start, w)
  {
    hide LogInv, Intact, Log, Plain, Gc.Collected, Gc.Panics, P.ParsePolicy, ReadPolicy, ReadAll;
    IntactHasLogs(c, db);
    ReadsLog(c, db, w);
    ReadsPolicy(c, ps, db, Gc.Collected(ps, start, clock, done), w);
    Gc.CollectedKeepsPolicies(ps, start, clock, done, w);
    Gc.CollectedElsewhere(ps, start, clock, done, w);
  }

  /**
   One world's turn of a collection, on the store: after the worlds in `done` have had theirs, it
   leaves the store that represents the collection of `done` and `w`, judged by the logs at the start.
   */
  lemma CollectRefines(c: Codec, db: Db, ps: P.Parsers, start: P.Logs, clock: int, done: set<WorldKey>,
                       w: WorldKey, db': Db)
    requires Gc.UniqueLogs(start) && w !in done && Plain(w)
    requires Intact(c, db) && Represents(c, db, Gc.Collected(ps, start, clock, done))
    requires Turn(c, ps, clock, db, w, db')
    ensures Intact(c, db') && Represents(c, db', Gc.Collected(ps, start, clock, done + {w}))
  {
    hide Intact, Log, Plain, Delete, Gc.Collected, Gc.Doomed, Gc.LatestTime, P.ParsePolicy, ReadPolicy, ReadAll,
         Keep, Gc.UniqueLogs, StorePanics, Scan;
    var logs := Gc.Collected(ps, start, clock, done);
    ReadsStart(c, db, ps, start, clock, done, w);
    Gc.CollectedElsewhere(ps, start, clock, done, w);
    var p := P.ParsePolicy(ps, start, w);
    var ids :| Chosen(ps, p, P.LogOf(start, w), clock, ids) && db' == Delete(c, db, w, ids);
    ChosenAreLogged(ps, p, P.LogOf(start, w), clock, ids);
    DeleteRefines(c, db, logs, w, ids);
    Gc.CollectedOneMore(ps, start, clock, done, w, ids);
  }

  // ---------------------------------------------------------------- a pass

  /** The turns of the worlds in `todo`, in that order, each going through, take `db` to `db'`. */
  ghost predicate Pass(c: Codec, ps: P.Parsers, clock: int, todo: seq<WorldKey>, db: Db, db': Db)
    decreases |todo|
  {
    if todo == [] then db' == db
    else exists mid :: Turn(c, ps, clock, db, todo[0], mid) && Pass(c, ps, clock, todo[1..], mid, db')
  }

  function WorldSet(todo: seq<WorldKey>): set<WorldKey> { set w | w in todo }

  lemma WorldSetStep(done: set<WorldKey>, todo: seq<WorldKey>)
    ensures todo == [] ==> done + WorldSet(todo) == done
    ensures todo != [] ==> done + {todo[0]} + WorldSet(todo[1..]) == done + WorldSet(todo)
    ensures todo != [] && Distinct(todo) ==> Distinct(todo[1..]) && todo[0] !in todo[1..]
    ensures forall w :: w in WorldSet(todo) <==> w in todo
  {
    if todo != [] {
      assert todo == [todo[0]] + todo[1..];
      assert forall i :: 0 <= i < |todo[1..]| ==> todo[1..][i] == todo[i + 1];
    }
  }

  lemma {:induction false} PassRefines(c: Codec, ps: P.Parsers, start: P.Logs, clock: int, done: set<WorldKey>,
                                       todo: seq<WorldKey>, db: Db, db': Db)
    requires Gc.UniqueLogs(start) && Distinct(todo) && forall w :: w in todo ==> Plain(w) && w !in done
    requires Intact(c, db) && Represents(c, db, Gc.Collected(ps, start, clock, done))
    requires Pass(c, ps, clock, todo, db, db')
    ensures Intact(c, db') && Represents(c, db', Gc.Collected(ps, start, clock, done + WorldSet(todo)))
    decreases |todo|
  {
    hide Intact, Represents, Plain, Turn, Gc.Collected, Gc.UniqueLogs, WorldSet;
    WorldSetStep(done, todo);
    if todo != [] {
      var mid :| Turn(c, ps, clock, db, todo[0], mid) && Pass(c, ps, clock, todo[1..], mid, db');
      CollectRefines(c, db, ps, start, clock, done, todo[0], mid);
      PassRefines(c, ps, start, clock, done + {todo[0]}, todo[1..], mid, db');
    }
  }

  /** A pass over worlds in a given order goes through exactly when none of them panics at the start. */
  lemma {:induction false} PassGoesThrough(c: Codec, ps: P.Parsers, start: P.Logs, clock: int, done: set<WorldKey>,
                                           todo: seq<WorldKey>, db: Db)
    requires Gc.UniqueLogs(start) && Distinct(todo) && forall w :: w in todo ==> Plain(w) && w !in done
    requires Intact(c, db) && Represents(c, db, Gc.Collected(ps, start, clock, done))
    ensures (exists db' :: Pass(c, ps, clock, todo, db, db')) <==> forall w :: w in todo ==> !Gc.PanicsIn(ps, start, w)
    decreases |todo|
  {
    hide Intact, Represents, Plain, Gc.Collected, Gc.UniqueLogs, Gc.PanicsIn, WorldSet, Turn;
    WorldSetStep(done, todo);
    if todo == [] {
      assert Pass(c, ps, clock, todo, db, db);
    } else {
      assert todo[0] in todo;
      TurnGoesThrough(c, ps, start, clock, done, todo[0], db);
      if Gc.PanicsIn(ps, start, todo[0]) {
        forall db' ensures !Pass(c, ps, clock, todo, db, db') {}
      } else {
        var some :| Turn(c, ps, clock, db, todo[0], some);
        CollectRefines(c, db, ps, start, clock, done, todo[0], some);
        PassGoesThrough(c, ps, start, clock, done + {todo[0]}, todo[1..], some);
        if forall w :: w in todo[1..] ==> !Gc.PanicsIn(ps, start, w) {
          var db' :| Pass(c, ps, clock, todo[1..], some, db');
          assert Pass(c, ps, clock, todo, db, db');
        } else {
          forall mid | Turn(c, ps, clock, db, todo[0], mid)
            ensures forall db' :: !Pass(c, ps, clock, todo[1..], mid, db')
          {
            CollectRefines(c, db, ps, start, clock, done, todo[0], mid);
            PassGoesThrough(c, ps, start, clock, done + {todo[0]}, todo[1..], mid);
          }
        }
      }
    }
  }

  lemma TurnGoesThrough(c: Codec, ps: P.Parsers, start: P.Logs, clock: int, done: set<WorldKey>, w: WorldKey, db: Db)
    requires w !in done && Plain(w)
    requires Intact(c, db) && Represents(c, db, Gc.Collected(ps, start, clock, done))
    ensures (exists db' :: Turn(c, ps, clock, db, w, db')) <==> !Gc.PanicsIn(ps, start, w)
  {
    hide Intact, Represents, Plain, Gc.Collected, Gc.PanicsIn, StorePanics, ReadPolicy, ReadAll, Scan, Delete;
    ReadsStart(c, db, ps, start, clock, done, w);
    ChosenExist(ps, ReadPolicy(c, ps, db, w), ReadAll(c, db, w), clock);
    var ids :| Chosen(ps, ReadPolicy(c, ps, db, w), ReadAll(c, db, w), clock, ids);
    assert !StorePanics(c, ps, db, w) ==> Turn(c, ps, clock, db, w, Delete(c, db, w, ids));
  }

  lemma SlashFreeListed(c: Codec, db: Db, w: WorldKey)
    requires LogInv(c, db) && '/' !in w && w !in Worlds(db)
    ensures Log(c, db, w) == []
  {
    hide LogPrefix, WorldOf, Canonical, Sound;
    SlashFreeIsPlain(w);
    assert WorldInv(c, db, w);
    LogImpliesWorld(db, w);
  }

  lemma NothingSurvives(ps: P.Parsers, logs: P.Logs, clock: int, w: WorldKey)
    requires P.LogOf(logs, w) == []
    ensures Gc.Survivors(ps, logs, clock, w) == []
  {
  }

  lemma DiscoveredPlain(db: Db, todo: seq<WorldKey>)
    requires forall v :: v in todo ==> v in Worlds(db)
    ensures forall v :: v in todo ==> Plain(v) && '/' !in v
  {
    hide Plain, Worlds;
    forall v | v in todo ensures Plain(v) && '/' !in v {
      WorldsAreSlashFree(db, v);
      SlashFreeIsPlain(v);
    }
  }

  /**
   What collecting discovered worlds does to the store, exactly, whether or not a panic cut the pass
   short: each collected world keeps its survivors and no other log changes. A world with a slash in
   its name is never among them, whatever its policy; a complete pass reaches every other.
   */
  lemma CollectionSkipsTenants(c: Codec, db: Db, ps: P.Parsers, logs: P.Logs, clock: int,
                               todo: seq<WorldKey>, db': Db, w: WorldKey)
    requires Intact(c, db) && Represents(c, db, logs) && Plain(w)
    requires Distinct(todo) && (forall v :: v in todo ==> v in Worlds(db)) && Pass(c, ps, clock, todo, db, db')
    ensures Log(c, db', w) == if w in todo then Gc.Survivors(ps, logs, clock, w) else Log(c, db, w)
    ensures '/' in w ==> Log(c, db', w) == Log(c, db, w)
    ensures WorldSet(todo) == Worlds(db) && '/' !in w ==> Log(c, db', w) == Gc.Survivors(ps, logs, clock, w)
  {
    hide LogInv, Intact, Log, Plain, Pass, Worlds, Gc.Survivors, Gc.UniqueLogs;
    IntactHasLogs(c, db);
    UniqueRepresented(c, db, logs);
    Gc.NothingCollected(ps, logs, clock);
    DiscoveredPlain(db, todo);
    PassRefines(c, ps, logs, clock, {}, todo, db, db');
    assert {} + WorldSet(todo) == WorldSet(todo);
    NothingIfAbsent(ps, logs, clock, w);
    if WorldSet(todo) == Worlds(db) && '/' !in w && w !in todo {
      SlashFreeListed(c, db, w);
    }
  }

  lemma NothingIfAbsent(ps: P.Parsers, logs: P.Logs, clock: int, w: WorldKey)
    ensures P.LogOf(logs, w) == [] ==> Gc.Survivors(ps, logs, clock, w) == []
  {
    if P.LogOf(logs, w) == [] { NothingSurvives(ps, logs, clock, w); }
  }
}
