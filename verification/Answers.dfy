/**
 What an answer contains, over whole runs and without reference to how candidates are gathered: which
 atoms it lists, and in which order. Along the way, what a run leaves in the engine's indexes.
 */
module Answers {
  import opened Prelude
  import opened Text
  import opened Atoms
  import opened Policy
  import opened Conflicts
  import opened Engine
  import opened SledScan
  import R = Reflex
  import Gc

  // ---------------------------------------------------------------- what a run leaves in the indexes

  predicate Parsed(cfg: Config, a: Atom) { cfg.reflex.parse(a.timestamp).Some? }

  ghost predicate HasVector(appended: seq<Atom>, w: WorldKey, id: AtomId) {
    exists a :: a in appended && a.world == w && a.id == id && a.vector.Some?
  }

  ghost predicate VectorsTrack(vectors: map<WorldKey, set<AtomId>>, appended: seq<Atom>) {
    forall w, id :: HasVector(appended, w, id) <==> w in vectors && id in vectors[w]
  }

  /**
   Everything appended is indexed, in order: the stream has the atoms whose timestamps parse, the reflex
   and conflict indexes are built from all of those, and the vector index has the ids of all atoms with
   a vector, whether their timestamps parse or not.
   */
  ghost predicate Indexed(cfg: Config, s: State, appended: seq<Atom>) {
    && s.published == Keep((a: Atom) => Parsed(cfg, a), appended)
    && s.index == R.Inserts(cfg.reflex, appended)
    && s.conflicts == RegisterAll(Keep((a: Atom) => Parsed(cfg, a), appended))
    && VectorsTrack(s.vectors, appended)
  }

  lemma HasVectorSnoc(appended: seq<Atom>, a: Atom, w: WorldKey, id: AtomId)
    ensures HasVector(appended + [a], w, id) <==>
              HasVector(appended, w, id) || (a.vector.Some? && a.world == w && a.id == id)
  {
    var all := appended + [a];
    assert a in all && forall b :: b in appended ==> b in all;
  }

  lemma AdmitVectors(cfg: Config, s: State, appended: seq<Atom>, a: Atom)
    requires VectorsTrack(s.vectors, appended)
    ensures VectorsTrack(Admit(cfg, s, a).vectors, appended + [a])
  {
    hide Register, R.Inserted, HasVector;
    var vectors := Admit(cfg, s, a).vectors;
    forall w, id
      ensures HasVector(appended + [a], w, id) <==> w in vectors && id in vectors[w]
    {
      HasVectorSnoc(appended, a, w, id);
    }
  }

  lemma AdmitIndexed(cfg: Config, s: State, appended: seq<Atom>, a: Atom)
    requires Indexed(cfg, s, appended)
    ensures Indexed(cfg, Admit(cfg, s, a), appended + [a])
  {
    hide Register, R.Inserted, VectorsTrack, Keep;
    AdmitVectors(cfg, s, appended, a);
    KeepSnoc((x: Atom) => Parsed(cfg, x), appended, a);
    var kept := Keep((x: Atom) => Parsed(cfg, x), appended);
    assert (kept + [a])[..|kept|] == kept;
    assert (appended + [a])[..|appended|] == appended;
    if !Parsed(cfg, a) { R.NotInserted(cfg.reflex, s.index, a); }
  }

  lemma {:induction false} IngestIndexed(cfg: Config, s: State, appended: seq<Atom>, atoms: seq<Atom>)
    requires Indexed(cfg, s, appended)
    ensures Indexed(cfg, Ingest(cfg, s, atoms).state, appended + IngestAppends(cfg, s, atoms))
    decreases |atoms|
  {
    hide Indexed, Admit, Stored;
    if atoms == [] {
      assert appended + [] == appended;
    } else if Stored(s.logs, atoms[0].id) {
      IngestIndexed(cfg, s, appended, atoms[1..]);
    } else {
      AdmitIndexed(cfg, s, appended, atoms[0]);
      if cfg.reflex.Parses(atoms[0]) {
        var more := IngestAppends(cfg, Admit(cfg, s, atoms[0]), atoms[1..]);
        IngestIndexed(cfg, Admit(cfg, s, atoms[0]), appended + [atoms[0]], atoms[1..]);
        assert appended + [atoms[0]] + more == appended + ([atoms[0]] + more);
      }
    }
  }

  lemma NothingIndexed(cfg: Config)
    ensures Indexed(cfg, EMPTY, [])
  {
  }

  lemma {:induction false} RunIndexed(cfg: Config, ops: seq<Op>)
    ensures Indexed(cfg, RunAll(cfg, ops).state, RunAll(cfg, ops).appended)
  {
    hide Indexed, Admit, Ingest, IngestAppends;
    if ops == [] {
      NothingIndexed(cfg);
    } else {
      var r := RunAll(cfg, ops[..|ops| - 1]);
      RunIndexed(cfg, ops[..|ops| - 1]);
      match ops[|ops| - 1] {
        case RememberOp(a) => AdmitIndexed(cfg, r.state, r.appended, a);
        case IngestOp(atoms) => IngestIndexed(cfg, r.state, r.appended, atoms);
        case GcOp(visit, clock) =>
          CollectedIndexed(cfg, r.state, r.appended, Gc.Collected(cfg.parsers, r.state.logs, clock, visit));
      }
    }
  }

  lemma CollectedIndexed(cfg: Config, s: State, appended: seq<Atom>, logs: Logs)
    requires Indexed(cfg, s, appended)
    ensures Indexed(cfg, s.(logs := logs), appended)
  {
  }

  // ---------------------------------------------------------------- what a question asks for

  /** What an atom in the reflex index must meet. Flags asked for exclude, and `since` is in whole seconds. */
  ghost predicate MeetsRecent(cfg: Config, q: Question, a: Atom) {
    a.world == q.world
    && (q.filter.Some? ==>
          var f := q.filter.value;
          && (f.kinds == [] || a.kind in f.kinds)
          && (forall l :: l in f.labels ==> l in a.labels)
          && (forall g :: g in f.flags ==> g !in a.flags)
          && (f.since.Some? ==>
                exists s, t :: cfg.reflex.parse(f.since.value) == Some(s) && cfg.reflex.parse(a.timestamp) == Some(t)
                               && s <= t))
  }

  /** What a logged atom must meet. Flags asked for are required, and times compare as strings. */
  ghost predicate MeetsStored(q: Question, a: Atom) {
    q.filter.Some? ==>
      var f := q.filter.value;
      && (f.kinds == [] || a.kind in f.kinds)
      && (forall l :: l in f.labels ==> l in a.labels)
      && (forall g :: g in f.flags ==> g in a.flags)
      && (f.since.Some? ==> f.since.value == a.timestamp || LexLess(f.since.value, a.timestamp))
      && (f.until.Some? ==> a.timestamp == f.until.value || LexLess(a.timestamp, f.until.value))
  }

  /** An atom of the world asked about that the reflex index still has and that meets the question. */
  ghost predicate Recent(cfg: Config, appended: seq<Atom>, q: Question, a: Atom) {
    MeetsRecent(cfg, q, a) && exists i :: 0 <= i < |appended| && appended[i] == a && R.Live(cfg.reflex, appended, i)
  }

  /** The positions before `i` of logged atoms that meet the question. */
  ghost function MatchesBefore(log: seq<Atom>, q: Question, i: nat): set<nat>
    requires i <= |log|
  {
    set j: nat | j < i && MeetsStored(q, log[j])
  }

  /** A logged atom that meets the question, and not too many before it do for the question's limit. */
  ghost predicate Logged(log: seq<Atom>, q: Question, a: Atom) {
    exists i :: 0 <= i < |log| && log[i] == a && MeetsStored(q, a)
      && (q.filter.Some? && q.filter.value.limit.Some? ==>
            |MatchesBefore(log, q, i)| < (if q.filter.value.limit.value == 0 then 1 else q.filter.value.limit.value))
  }

  /** What an answer is about: recent atoms, or logged ones if none is recent, and what was fetched. */
  ghost predicate Relevant(cfg: Config, r: Run, q: Question, fetched: seq<Atom>, a: Atom) {
    a in fetched
    || if exists b :: Recent(cfg, r.appended, q, b) then Recent(cfg, r.appended, q, a)
       else Logged(LogOf(r.state.logs, q.world), q, a)
  }

  /** A question whose lower time bound, if it has one, can be read; others are refused. */
  predicate Readable(cfg: Config, q: Question) {
    q.filter.Some? && q.filter.value.since.Some? ==> cfg.reflex.parse(q.filter.value.since.value).Some?
  }

  // ---------------------------------------------------------------- candidates

  /** The reflex hits of a run are its recent atoms. */
  lemma HitsAreRecent(cfg: Config, ops: seq<Op>, q: Question, hits: seq<Atom>, a: Atom)
    requires Readable(cfg, q)
    requires R.Collected(cfg.reflex, RunAll(cfg, ops).state.index, ReflexFilterOf(q), SinceOf(cfg, q), hits, {})
    ensures a in hits <==> Recent(cfg, RunAll(cfg, ops).appended, q, a)
  {
    hide R.Collected, RunAll, R.Live, R.Config.BucketOf, R.Content, R.Inserts;
    var r := RunAll(cfg, ops);
    RunIndexed(cfg, ops);
    R.InsertsFiled(cfg.reflex, r.appended);
    R.FilterSelects(cfg.reflex, r.state.index, ReflexFilterOf(q), SinceOf(cfg, q), hits, a);
    R.InContent(cfg.reflex, r.state.index, a);
    R.RetainedIffLive(cfg.reflex, r.appended, a);
  }

  function First(s: seq<Atom>, n: nat): seq<Atom> { if |s| <= n then s else s[..n] }

  /** Membership in the first `n` kept atoms, by position in what they are kept from. */
  lemma {:induction false} KeepFirst(m: Atom -> bool, log: seq<Atom>, n: nat, a: Atom)
    ensures a in First(Keep(m, log), n) <==>
              exists i :: 0 <= i < |log| && log[i] == a && m(a) && |Keep(m, log[..i])| < n
  {
    hide Keep;
    if log == [] {
      KeepNone(m, log);
    } else {
      var k := |log| - 1;
      var front, x := log[..k], log[k];
      assert log == front + [x];
      KeepFirst(m, front, n, a);
      KeepSnoc(m, front, x);
      assert forall i :: 0 <= i < k ==> front[..i] == log[..i];
      FirstSnoc(Keep(m, front), x, n, a);
      if a in First(Keep(m, log), n) && a !in First(Keep(m, front), n) {
        assert log[k] == a && |Keep(m, log[..k])| < n;
      }
      if i :| 0 <= i < k && front[i] == a && m(a) && |Keep(m, front[..i])| < n { assert log[i] == a; }
      if i :| 0 <= i < |log| && log[i] == a && m(a) && |Keep(m, log[..i])| < n {
        if i < k { assert front[i] == a && |Keep(m, front[..i])| < n; }
      }
    }
  }

  lemma FirstSnoc(s: seq<Atom>, x: Atom, n: nat, a: Atom)
    ensures a in First(s + [x], n) <==> a in First(s, n) || (|s| < n && a == x)
  {
    if |s| >= n { assert (s + [x])[..n] == s[..n]; }
  }

  ghost function Chosen(m: Atom -> bool, log: seq<Atom>, i: nat): set<nat>
    requires i <= |log|
  {
    set j: nat | j < i && m(log[j])
  }

  lemma ChosenStep(m: Atom -> bool, log: seq<Atom>, i: nat)
    requires i < |log|
    ensures |Chosen(m, log, i + 1)| == |Chosen(m, log, i)| + (if m(log[i]) then 1 else 0)
  {
    var before := Chosen(m, log, i);
    assert Chosen(m, log, i + 1) == if m(log[i]) then before + {i} else before;
  }

  lemma {:induction false} CountIsLength(m: Atom -> bool, log: seq<Atom>, i: nat)
    requires i <= |log|
    ensures |Chosen(m, log, i)| == |Keep(m, log[..i])|
  {
    hide Keep, Chosen;
    if i == 0 {
      KeepNone(m, log[..0]);
      assert Chosen(m, log, 0) == {} by { NoneChosen(m, log); }
    } else {
      CountIsLength(m, log, i - 1);
      ChosenStep(m, log, i - 1);
      assert log[..i] == log[..i - 1] + [log[i - 1]];
      KeepSnoc(m, log[..i - 1], log[i - 1]);
    }
  }

  lemma NoneChosen(m: Atom -> bool, log: seq<Atom>)
    ensures Chosen(m, log, 0) == {}
  {
  }

  /** The atoms a limited, filtered log has. */
  lemma ScanIsLogged(log: seq<Atom>, q: Question, a: Atom)
    ensures a in Limited(FilterOf(q).limit, Keep((x: Atom) => MatchesFilter(x, FilterOf(q)), log))
            <==> Logged(log, q, a)
  {
    hide Keep, MatchesFilter;
    var f := FilterOf(q);
    var m := (x: Atom) => MatchesFilter(x, f);
    forall x ensures m(x) <==> MeetsStored(q, x) { MatchingMeaning(q, x); }
    if f.limit.None? {
      if a in Keep(m, log) { var i :| 0 <= i < |log| && log[i] == a; }
    } else {
      var n := if f.limit.value == 0 then 1 else f.limit.value;
      KeepFirst(m, log, n, a);
      forall i | 0 <= i < |log| ensures |MatchesBefore(log, q, i)| == |Keep(m, log[..i])| {
        CountIsLength(m, log, i);
        assert MatchesBefore(log, q, i) == Chosen(m, log, i);
      }
    }
  }

  lemma MatchingMeaning(q: Question, a: Atom)
    ensures MatchesFilter(a, FilterOf(q)) <==> MeetsStored(q, a)
  {
    hide MatchesFilter, LexLess;
    SelectionMeaning(a, FilterOf(q));
  }

  // ---------------------------------------------------------------- answers

  /** In a run every log has atoms of its own world only, and so has every list of reflex hits. */
  lemma LogsOwn(cfg: Config, ops: seq<Op>, w: WorldKey, a: Atom)
    requires a in LogOf(RunAll(cfg, ops).state.logs, w)
    ensures a.world == w
  {
    hide RunAll;
    RunGrounded(cfg, ops);
    assert AppendedTo(RunAll(cfg, ops).appended, w, a);
  }

  /** The fallback scan asks for the world it scans; the last one for whatever the filter names. */
  lemma Scans(logs: Logs, q: Question)
    ensures var f := FilterOf(q);
            var scan := Limited(f.limit, Keep((a: Atom) => MatchesFilter(a, f), LogOf(logs, q.world)));
            && ScanLog(logs, q.world, f.(world := Some(q.world))) == scan
            && (ScanLog(logs, q.world, f) == scan || ScanLog(logs, q.world, f) == [])
  {
    hide Limited, Keep;
    var f := FilterOf(q);
    var g := f.(world := Some(q.world));
    KeepCongruent((a: Atom) => MatchesFilter(a, g), (a: Atom) => MatchesFilter(a, f), LogOf(logs, q.world));
  }

  lemma LoggedIsInLog(log: seq<Atom>, q: Question, a: Atom)
    requires Logged(log, q, a)
    ensures a in log
  {
  }

  /** Atoms of the world asked about pass the quarantine filter. */
  lemma NothingDropped(q: Question, atoms: seq<Atom>)
    requires forall a :: a in atoms ==> a.world == q.world
    ensures WithoutQuarantine(q, atoms) == atoms
  {
    if !(QUARANTINE <= q.world) { KeepAll((a: Atom) => !(QUARANTINE <= a.world), atoms); }
  }

  lemma Gathered(logs: Logs, q: Question, hits: seq<Atom>, fetched: seq<Atom>, first: seq<Atom>)
    requires first == if hits == [] then ScanLog(logs, q.world, FilterOf(q).(world := Some(q.world))) else hits
    requires forall a :: a in first ==> a.world == q.world
    ensures Candidates(logs, q, hits, fetched) == first + fetched
  {
    hide ScanLog, WithoutQuarantine, Limited, Keep, MatchesFilter;
    NothingDropped(q, first);
    Scans(logs, q);
  }

  /**
   The candidates of a run are the relevant atoms. Neither the quarantine filter nor the last scan ever
   makes a difference: what is considered is of the world asked about, so the filter drops nothing, and
   when no atom is left the last scan finds what the first one found.
   */
  lemma CandidatesExactly(cfg: Config, ops: seq<Op>, q: Question, hits: seq<Atom>, fetched: seq<Atom>, a: Atom)
    requires Readable(cfg, q)
    requires R.Collected(cfg.reflex, RunAll(cfg, ops).state.index, ReflexFilterOf(q), SinceOf(cfg, q), hits, {})
    ensures a in Candidates(RunAll(cfg, ops).state.logs, q, hits, fetched) <==>
              Relevant(cfg, RunAll(cfg, ops), q, fetched, a)
  {
    hide RunAll, R.Collected, Logged, ScanLog, Candidates, MeetsRecent;
    var r := RunAll(cfg, ops);
    var log := LogOf(r.state.logs, q.world);
    var scan := ScanLog(r.state.logs, q.world, FilterOf(q).(world := Some(q.world)));
    var first := if hits == [] then scan else hits;
    forall b ensures b in hits <==> Recent(cfg, r.appended, q, b) { HitsAreRecent(cfg, ops, q, hits, b); }
    Scans(r.state.logs, q);
    forall b ensures b in scan <==> Logged(log, q, b) { ScanIsLogged(log, q, b); }
    forall b | b in first
      ensures b.world == q.world
    {
      if hits == [] {
        LoggedIsInLog(log, q, b);
        LogsOwn(cfg, ops, q.world, b);
      } else {
        RecentOwn(cfg, r.appended, q, b);
      }
    }
    if hits != [] { assert hits[0] in hits; }
    Gathered(r.state.logs, q, hits, fetched, first);
  }

  lemma RecentOwn(cfg: Config, appended: seq<Atom>, q: Question, a: Atom)
    requires Recent(cfg, appended, q, a)
    ensures a.world == q.world
  {
  }

  /**
   Exactly what an answer contains, over any run of remembering, ingesting and collecting: the ids of
   the relevant atoms, each once. Relevant are the recent atoms that meet the question; if there is
   none, the first logged ones that do, as many as its limit allows; and whatever was fetched.
   */
  lemma AnswerCovers(cfg: Config, ops: seq<Op>, q: Question, fetched: seq<Atom>, answer: seq<Atom>)
    requires Readable(cfg, q) && AnswerOf(cfg, RunAll(cfg, ops).state, q, fetched, answer)
    ensures UniqueIds(answer)
    ensures forall a :: a in answer ==> Relevant(cfg, RunAll(cfg, ops), q, fetched, a)
    ensures forall a :: Relevant(cfg, RunAll(cfg, ops), q, fetched, a) ==> exists b :: b in answer && b.id == a.id
  {
    hide RunAll, R.Collected, Candidates, Ranked, Relevant, Readable;
    var s := RunAll(cfg, ops).state;
    var hits :| R.Collected(cfg.reflex, s.index, ReflexFilterOf(q), SinceOf(cfg, q), hits, {})
                && answer == Ranked(cfg.ranking, s.conflicts, Candidates(s.logs, q, hits, fetched));
    RankedMeaning(cfg.ranking, s.conflicts, Candidates(s.logs, q, hits, fetched));
    forall a
      ensures a in Candidates(s.logs, q, hits, fetched) <==> Relevant(cfg, RunAll(cfg, ops), q, fetched, a)
    {
      CandidatesExactly(cfg, ops, q, hits, fetched, a);
    }
  }

  /** As long as no id stands for two different atoms, an answer lists exactly the relevant atoms. */
  lemma AnswersExactly(cfg: Config, ops: seq<Op>, q: Question, fetched: seq<Atom>, answer: seq<Atom>, a: Atom)
    requires Readable(cfg, q) && AnswerOf(cfg, RunAll(cfg, ops).state, q, fetched, answer)
    requires OneAtomPerId(RunAll(cfg, ops).appended) && Fetchable(RunAll(cfg, ops).state, q, fetched)
    ensures a in answer <==> Relevant(cfg, RunAll(cfg, ops), q, fetched, a)
  {
    hide RunAll, AnswerOf, Relevant, Readable, Fetchable, UniqueIds, OneAtomPerId;
    AnswerCovers(cfg, ops, q, fetched, answer);
    if Relevant(cfg, RunAll(cfg, ops), q, fetched, a) {
      var b :| b in answer && b.id == a.id;
      RelevantAppended(cfg, ops, q, fetched, a);
      RelevantAppended(cfg, ops, q, fetched, b);
      SameAtom(RunAll(cfg, ops).appended, a, b);
    }
  }

  lemma SameAtom(appended: seq<Atom>, a: Atom, b: Atom)
    requires OneAtomPerId(appended) && a in appended && b in appended && a.id == b.id
    ensures a == b
  {
  }

  lemma RelevantAppended(cfg: Config, ops: seq<Op>, q: Question, fetched: seq<Atom>, a: Atom)
    requires Fetchable(RunAll(cfg, ops).state, q, fetched) && Relevant(cfg, RunAll(cfg, ops), q, fetched, a)
    ensures a in RunAll(cfg, ops).appended
  {
    hide RunAll, Logged, R.Live, MeetsRecent;
    var r := RunAll(cfg, ops);
    RunGrounded(cfg, ops);
    if a in fetched {
      var w :| a in LogOf(r.state.logs, w);
      assert AppendedTo(r.appended, w, a);
    } else if !Recent(cfg, r.appended, q, a) {
      LoggedIsInLog(LogOf(r.state.logs, q.world), q, a);
      assert AppendedTo(r.appended, q.world, a);
    }
  }

  // ---------------------------------------------------------------- the order of an answer

  /** The links of all atoms with readable timestamps, as a bag. */
  function Links(cfg: Config, appended: seq<Atom>): multiset<Link> {
    LinkBag(Keep((a: Atom) => Parsed(cfg, a), appended))
  }

  /** Importance, less one if superseded, less 0.3 for each contradiction, plus 0.2 for each confirmation. */
  function Standing(links: multiset<Link>, a: Atom): real {
    a.importance
    - (if links[Link(a.id, Supersedes)] > 0 then 1.0 else 0.0)
    - 0.3 * (links[Link(a.id, Contradicts)] as real) + 0.2 * (links[Link(a.id, Confirms)] as real)
  }

  /** The time an answer is sorted by; what cannot be read counts as the start of 1970. */
  function SortTime(cfg: Config, a: Atom): int {
    match cfg.ranking.parse(a.timestamp)
    case None => 0
    case Some(t) => t
  }

  /**
   The order of an answer: of two atoms, the first has the higher standing; or the same and the later
   time; or the same and the greater importance; or the same and the trust of its worker no smaller.
   */
  lemma AnswerInOrder(
    cfg: Config, ops: seq<Op>, q: Question, fetched: seq<Atom>, answer: seq<Atom>, i: nat, j: nat)
    requires AnswerOf(cfg, RunAll(cfg, ops).state, q, fetched, answer) && i < j < |answer|
    ensures var links := Links(cfg, RunAll(cfg, ops).appended);
            var a, b := answer[i], answer[j];
            var x, y := Standing(links, a), Standing(links, b);
            x > y || (x == y &&
            (SortTime(cfg, a) > SortTime(cfg, b) || (SortTime(cfg, a) == SortTime(cfg, b) &&
            (a.importance > b.importance || (a.importance == b.importance &&
            cfg.ranking.trust(a.worker) >= cfg.ranking.trust(b.worker))))))
  {
    hide RunAll, R.Collected, Candidates, Ranked, RankScore, Links;
    var r := RunAll(cfg, ops);
    var s := r.state;
    var hits :| R.Collected(cfg.reflex, s.index, ReflexFilterOf(q), SinceOf(cfg, q), hits, {})
                && answer == Ranked(cfg.ranking, s.conflicts, Candidates(s.logs, q, hits, fetched));
    RankedMeaning(cfg.ranking, s.conflicts, Candidates(s.logs, q, hits, fetched));
    assert AnswerOrder(cfg.ranking, s.conflicts)(answer[i], answer[j]);
    StandingIsScore(cfg, ops, answer[i]);
    StandingIsScore(cfg, ops, answer[j]);
  }

  lemma StandingIsScore(cfg: Config, ops: seq<Op>, a: Atom)
    ensures RankScore(RunAll(cfg, ops).state.conflicts, a) == Standing(Links(cfg, RunAll(cfg, ops).appended), a)
  {
    hide RunAll, LinkBag, RankScore;
    var r := RunAll(cfg, ops);
    RunIndexed(cfg, ops);
    ScoreOfLinks(Keep((x: Atom) => Parsed(cfg, x), r.appended), a);
  }
}
