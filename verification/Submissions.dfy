/**
 Submissions over whole runs: which of them are filed under the quarantine world of their world rather
 than the world itself, said in terms of payload, worker and history, and what questions see of them.
 */
module Submissions {
  import opened Prelude
  import opened Atoms
  import opened Policy
  import opened Engine
  import opened Answers
  import Q = Quarantine
  import R = Reflex

  /** What happens to an engine: submissions by workers, batches from peers, collections. */
  datatype Event =
    | Submit(atom: Atom, now: int)
    | Deliver(atoms: seq<Atom>)
    | Collect(visit: set<WorldKey>, clock: int)

  datatype Session = Session(run: Run, suspicions: map<string, seq<int>>)

  const NEW := Session(Run(EMPTY, []), map[])

  /** The queue a submission leaves for its worker. */
  function QueueAt(s: Session, a: Atom, now: int): seq<int> {
    Q.Recorded(Q.QueueOf(s.suspicions, a.worker), now)
  }

  /** The engine's operation that an event amounts to. */
  function OpOf(s: Session, e: Event): Op {
    match e
    case Submit(a, now) => RememberOp(if Q.Suspect(a, |QueueAt(s, a, now)|) then Q.Diverted(a) else a)
    case Deliver(atoms) => IngestOp(atoms)
    case Collect(visit, clock) => GcOp(visit, clock)
  }

  function Next(cfg: Config, s: Session, e: Event): Session {
    Session(Perform(cfg, s.run, OpOf(s, e)),
            if e.Submit? then s.suspicions[e.atom.worker := QueueAt(s, e.atom, e.now)] else s.suspicions)
  }

  function Play(cfg: Config, events: seq<Event>): Session {
    if events == [] then NEW else Next(cfg, Play(cfg, events[..|events| - 1]), events[|events| - 1])
  }

  /** The engine's operations that a sequence of events amounts to. */
  function Ops(cfg: Config, events: seq<Event>): seq<Op> {
    if events == [] then []
    else
      var front := events[..|events| - 1];
      Ops(cfg, front) + [OpOf(Play(cfg, front), events[|events| - 1])]
  }

  /** So everything proved of runs of the engine holds here. */
  lemma {:induction false} PlayIsRun(cfg: Config, events: seq<Event>)
    ensures Play(cfg, events).run == RunAll(cfg, Ops(cfg, events))
  {
    hide Next, OpOf, Perform;
    if events != [] {
      var n := |events| - 1;
      var front := events[..n];
      PlayIsRun(cfg, front);
      var ops := Ops(cfg, front);
      var op := OpOf(Play(cfg, front), events[n]);
      assert (ops + [op])[..|ops|] == ops;
      NextRun(cfg, Play(cfg, front), events[n]);
    }
  }

  lemma NextRun(cfg: Config, s: Session, e: Event)
    ensures Next(cfg, s, e).run == Perform(cfg, s.run, OpOf(s, e))
  {
  }

  // ---------------------------------------------------------------- what is suspicious

  /** The text begins at `i` with `word`, a word of small letters, in letters of either case. */
  predicate SaysAt(text: string, word: string, i: int) {
    0 <= i <= |text| - |word|
    && forall k :: 0 <= k < |word| ==> text[i + k] == word[k] || text[i + k] as int + 32 == word[k] as int
  }

  ghost predicate Says(text: string, word: string) { exists i :: SaysAt(text, word, i) }

  /** The earlier submissions of a worker that are no more than a second old. */
  ghost function LastSecond(before: seq<Event>, worker: string, now: int): set<nat> {
    set i: nat | i < |before| && before[i].Submit? && before[i].atom.worker == worker
                 && now - before[i].now <= 1_000_000_000
  }

  /** Five others in the last second, an impossible payload, or low trust with high importance. */
  ghost predicate Suspicious(before: seq<Event>, a: Atom, now: int) {
    || |LastSecond(before, a.worker, now)| >= 5
    || Says(a.payload, "nan") || Says(a.payload, "infinity") || Says(a.payload, "impossible")
    || (SaysAt(a.worker, "lowtrust", 0) && a.importance > 0.7)
  }

  /** Submissions are made in time order. */
  ghost predicate InOrder(events: seq<Event>) {
    forall i, j :: 0 <= i <= j < |events| && events[i].Submit? && events[j].Submit? ==> events[i].now <= events[j].now
  }

  predicate SmallLetters(word: string) { forall k :: 0 <= k < |word| ==> 'a' <= word[k] <= 'z' }

  lemma LoweredBegins(text: string, word: string, i: int)
    requires SmallLetters(word) && 0 <= i <= |text|
    ensures word <= Q.Lower(text)[i..] <==> SaysAt(text, word, i)
  {
    var lower := Q.Lower(text);
    if i <= |text| - |word| {
      assert forall k :: 0 <= k < |word| ==> lower[i..][k] == lower[i + k];
      assert word <= lower[i..] <==> forall k :: 0 <= k < |word| ==> lower[i + k] == word[k] by {
        if forall k :: 0 <= k < |word| ==> lower[i + k] == word[k] { assert lower[i..][..|word|] == word; }
      }
    }
  }

  lemma LoweredContains(text: string, word: string)
    requires SmallLetters(word)
    ensures Q.Contains(Q.Lower(text), word) <==> Says(text, word)
  {
    hide Q.Lower, SaysAt;
    LowerLength(text);
    forall i | 0 <= i <= |text|
      ensures word <= Q.Lower(text)[i..] <==> SaysAt(text, word, i)
    {
      LoweredBegins(text, word, i);
    }
    if i :| SaysAt(text, word, i) { SaysInside(text, word, i); }
  }

  lemma LowerLength(text: string)
    ensures |Q.Lower(text)| == |text|
  {
  }

  lemma SaysInside(text: string, word: string, i: int)
    requires SaysAt(text, word, i)
    ensures 0 <= i <= |text| - |word|
  {
  }

  // ---------------------------------------------------------------- the last second

  /** When a worker made its submissions. */
  function TimesOf(events: seq<Event>, worker: string): seq<int> {
    if events == [] then []
    else
      var e := events[|events| - 1];
      TimesOf(events[..|events| - 1], worker) + (if e.Submit? && e.atom.worker == worker then [e.now] else [])
  }

  lemma {:induction false} QueueIsOfTimes(cfg: Config, events: seq<Event>, worker: string)
    ensures Q.QueueOf(Play(cfg, events).suspicions, worker) == Q.QueueAfter(TimesOf(events, worker))
  {
    hide Perform, OpOf, Q.Recorded;
    if events == [] {
      assert Q.QueueAfter([]) == [];
    } else {
      var front, e := events[..|events| - 1], events[|events| - 1];
      QueueIsOfTimes(cfg, front, worker);
      var times := TimesOf(front, worker);
      if e.Submit? && e.atom.worker == worker {
        assert (times + [e.now])[..|times|] == times;
      } else {
        assert times + [] == times;
      }
    }
  }

  ghost predicate UpTo(times: seq<int>, now: int) { Q.Rising(times) && forall t :: t in times ==> t <= now }

  lemma {:induction false} TimesRise(events: seq<Event>, a: Atom, worker: string, now: int)
    requires InOrder(events + [Submit(a, now)])
    ensures UpTo(TimesOf(events, worker), now)
  {
    if events != [] {
      var front, e := events[..|events| - 1], events[|events| - 1];
      var all := events + [Submit(a, now)];
      var t := if e.Submit? then e.now else now;
      assert InOrder(front + [Submit(a, t)]) by {
        assert forall i :: 0 <= i < |front| ==> front[i] == all[i];
        assert all[|front|] == e && all[|events|] == Submit(a, now);
        if !e.Submit? { assert t == now; }
      }
      TimesRise(front, a, worker, t);
      assert e.Submit? ==> t <= now by { assert all[|front|] == e && all[|events|] == Submit(a, now); }
      Appended(TimesOf(front, worker), t, now);
    }
  }

  lemma Appended(times: seq<int>, t: int, now: int)
    requires UpTo(times, t) && t <= now
    ensures UpTo(times, now) && UpTo(times + [t], now) && UpTo(times + [], now)
  {
    assert times + [] == times;
    forall i | 0 <= i < |times| ensures times[i] <= t { assert times[i] in times; }
  }

  lemma LastSecondSnoc(front: seq<Event>, e: Event, worker: string, now: int)
    ensures |LastSecond(front + [e], worker, now)|
         == |LastSecond(front, worker, now)|
            + (if e.Submit? && e.atom.worker == worker && now - e.now <= 1_000_000_000 then 1 else 0)
  {
    var before := LastSecond(front, worker, now);
    var all := front + [e];
    var counts := e.Submit? && e.atom.worker == worker && now - e.now <= 1_000_000_000;
    assert all[|front|] == e && forall i :: 0 <= i < |front| ==> all[i] == front[i];
    assert LastSecond(all, worker, now) == if counts then before + {|front|} else before;
  }

  lemma {:induction false} CountLastSecond(events: seq<Event>, worker: string, now: int)
    ensures |Q.LastSecond(TimesOf(events, worker), now)| == |LastSecond(events, worker, now)|
  {
    hide LastSecond, Keep;
    var recent := (t: int) => Q.Gap(now, t) <= Q.SECOND;
    if events == [] {
      KeepNone(recent, []);
      assert LastSecond([], worker, now) == {} by { NoneBefore(worker, now); }
    } else {
      var front, e := events[..|events| - 1], events[|events| - 1];
      assert events == front + [e];
      CountLastSecond(front, worker, now);
      LastSecondSnoc(front, e, worker, now);
      var times := TimesOf(front, worker);
      if e.Submit? && e.atom.worker == worker { KeepSnoc(recent, times, e.now); } else { assert times + [] == times; }
    }
  }

  lemma NoneBefore(worker: string, now: int)
    ensures LastSecond([], worker, now) == {}
  {
  }

  /** The engine's verdict is the one spelled out above. */
  lemma SuspectMeaning(cfg: Config, before: seq<Event>, a: Atom, now: int)
    requires InOrder(before + [Submit(a, now)])
    ensures Q.Suspect(a, |QueueAt(Play(cfg, before), a, now)|) <==> Suspicious(before, a, now)
  {
    hide Play, LastSecond, Q.QueueAfter, TimesOf, Q.Contains, Q.Lower, Says, SaysAt;
    var times := TimesOf(before, a.worker);
    QueueIsOfTimes(cfg, before, a.worker);
    TimesRise(before, a, a.worker, now);
    Appended(times, now, now);
    RecordedLast(times, now);
    CountLastSecond(before, a.worker, now);
    LoweredContains(a.payload, "nan");
    LoweredContains(a.payload, "infinity");
    LoweredContains(a.payload, "impossible");
    LoweredBegins(a.worker, "lowtrust", 0);
    assert Q.Lower(a.worker)[0..] == Q.Lower(a.worker);
  }

  /** After one more submission the queue is the last second of all, itself included. */
  lemma RecordedLast(times: seq<int>, now: int)
    requires Q.Rising(times + [now])
    ensures |Q.Recorded(Q.QueueAfter(times), now)| == |Q.LastSecond(times, now)| + 1
  {
    hide Q.Recorded, Keep;
    var all := times + [now];
    assert all[..|times|] == times;
    Q.QueueIsLastSecond(all);
    KeepSnoc((t: int) => Q.Gap(now, t) <= Q.SECOND, times, now);
  }

  // ---------------------------------------------------------------- where a submission goes

  /** A suspicious submission as it is filed: under its world's quarantine world, marked unless it was. */
  function Quarantined(a: Atom): Atom {
    a.(world := "quarantine:" + a.world,
       flags := a.flags + (if "suspect" in a.flags then [] else ["suspect"]),
       labels := a.labels + (if "quarantine" in a.labels then [] else ["quarantine"]))
  }

  /** The log of `w` after a sequence of events. */
  function LogAfter(cfg: Config, events: seq<Event>, w: WorldKey): seq<Atom> {
    LogOf(Play(cfg, events).run.state.logs, w)
  }

  /**
   Where a submission goes, after any events: a suspicious one to the log of the quarantine world of its
   world, marked, any other to the log of its world as it is; and no other log changes.
   */
  lemma SubmissionFiled(cfg: Config, before: seq<Event>, a: Atom, now: int, w: WorldKey)
    requires InOrder(before + [Submit(a, now)])
    ensures var log, log' := LogAfter(cfg, before, w), LogAfter(cfg, before + [Submit(a, now)], w);
            if Suspicious(before, a, now)
            then log' == if w == "quarantine:" + a.world then log + [Quarantined(a)] else log
            else log' == if w == a.world then log + [a] else log
  {
    hide Play, Suspicious, QueueAt, Q.Suspect, Q.Diverted;
    SuspectMeaning(cfg, before, a, now);
    OneMore(cfg, before, Submit(a, now));
    DivertedIs(a);
    var s := Play(cfg, before);
    var filed := if Suspicious(before, a, now) then Quarantined(a) else a;
    AdmitLog(cfg, s.run.state, filed, w);
  }

  lemma OneMore(cfg: Config, events: seq<Event>, e: Event)
    ensures Play(cfg, events + [e]) == Next(cfg, Play(cfg, events), e)
    ensures Play(cfg, events + [e]).run == Perform(cfg, Play(cfg, events).run, OpOf(Play(cfg, events), e))
  {
    hide Perform, OpOf;
    assert (events + [e])[..|events|] == events;
  }

  lemma DivertedIs(a: Atom)
    ensures Q.Diverted(a) == Quarantined(a)
  {
    assert a.flags + [] == a.flags && a.labels + [] == a.labels;
  }

  lemma AdmitLog(cfg: Config, s: State, a: Atom, w: WorldKey)
    ensures LogOf(Admit(cfg, s, a).logs, w) == if w == a.world then LogOf(s.logs, w) + [a] else LogOf(s.logs, w)
  {
  }

  // ---------------------------------------------------------------- what questions see of it

  /** What a submission is filed as. */
  ghost function FiledAs(before: seq<Event>, a: Atom, now: int): Atom {
    if Suspicious(before, a, now) then Quarantined(a) else a
  }

  lemma FiledLast(cfg: Config, before: seq<Event>, a: Atom, now: int)
    requires InOrder(before + [Submit(a, now)])
    ensures Play(cfg, before + [Submit(a, now)]).run.appended
         == Play(cfg, before).run.appended + [FiledAs(before, a, now)]
  {
    hide Play, Suspicious, QueueAt, Q.Suspect, Q.Diverted, Admit, Quarantined;
    SuspectMeaning(cfg, before, a, now);
    OneMore(cfg, before, Submit(a, now));
    DivertedIs(a);
  }

  lemma InOrderFront(events: seq<Event>, k: nat)
    requires InOrder(events) && k <= |events|
    ensures InOrder(events[..k])
  {
  }

  /** What was filed once stays among what was appended. */
  lemma {:induction false} StaysAppended(cfg: Config, events: seq<Event>, k: nat, a: Atom, now: int)
    requires InOrder(events) && k < |events| && events[k] == Submit(a, now)
    ensures FiledAs(events[..k], a, now) in Play(cfg, events).run.appended
  {
    hide Play, FiledAs, Next, OpOf, InOrder;
    var n := |events| - 1;
    var front := events[..n];
    assert events == front + [events[n]];
    if k == n {
      FiledLast(cfg, front, a, now);
    } else {
      assert front[..k] == events[..k];
      InOrderFront(events, n);
      StaysAppended(cfg, front, k, a, now);
      OneMore(cfg, front, events[n]);
      AppendedGrows(cfg, Play(cfg, front).run, OpOf(Play(cfg, front), events[n]), FiledAs(events[..k], a, now));
    }
  }

  lemma AppendedGrows(cfg: Config, r: Run, op: Op, a: Atom)
    requires a in r.appended
    ensures a in Perform(cfg, r, op).appended
  {
  }

  /** No answer about a world ever lists a submission to it that was suspicious, whatever came later. */
  lemma SuspiciousNeverAnswered(
    cfg: Config, events: seq<Event>, k: nat, a: Atom, now: int, q: Question, fetched: seq<Atom>, answer: seq<Atom>)
    requires InOrder(events) && k < |events| && events[k] == Submit(a, now) && Suspicious(events[..k], a, now)
    requires OneAtomPerId(Play(cfg, events).run.appended) && Fetchable(Play(cfg, events).run.state, q, fetched)
    requires AnswerOf(cfg, Play(cfg, events).run.state, q, fetched, answer) && q.world == a.world
    ensures forall b :: b in answer ==> b.id != a.id
  {
    hide Play, Suspicious, InOrder, OneAtomPerId, Fetchable, AnswerOf, UniqueIds, Ops;
    PlayIsRun(cfg, events);
    AskIsSound(cfg, Ops(cfg, events), q, fetched, answer);
    StaysAppended(cfg, events, k, a, now);
    var appended := Play(cfg, events).run.appended;
    forall b | b in answer
      ensures b.id != a.id
    {
      if b.id == a.id {
        SameAtom(appended, b, Quarantined(a));
        OtherWorld(a);
      }
    }
  }

  lemma OtherWorld(a: Atom)
    ensures Quarantined(a).world != a.world && Quarantined(a).id == a.id
  {
    assert |Quarantined(a).world| > |a.world|;
  }

  /** Any other submission with a readable timestamp is in the next answer about its world. */
  lemma SubmissionAnswered(
    cfg: Config, before: seq<Event>, a: Atom, now: int, fetched: seq<Atom>, answer: seq<Atom>)
    requires InOrder(before + [Submit(a, now)]) && !Suspicious(before, a, now)
    requires cfg.reflex.parse(a.timestamp).Some?
    requires AnswerOf(cfg, Play(cfg, before + [Submit(a, now)]).run.state, Question(a.world, None), fetched, answer)
    ensures exists b :: b in answer && b.id == a.id
  {
    hide Play, Suspicious, InOrder, AnswerOf, UniqueIds, Ops, R.Live, Relevant;
    var events := before + [Submit(a, now)];
    var q := Question(a.world, None);
    PlayIsRun(cfg, events);
    AnswerCovers(cfg, Ops(cfg, events), q, fetched, answer);
    FiledLast(cfg, before, a, now);
    LastIsLive(cfg, Play(cfg, before).run.appended, a);
    LastIsRelevant(cfg, Play(cfg, events).run, q, fetched, a);
  }

  lemma LastIsLive(cfg: Config, appended: seq<Atom>, a: Atom)
    requires cfg.reflex.parse(a.timestamp).Some?
    ensures R.Live(cfg.reflex, appended + [a], |appended|)
  {
  }

  lemma LastIsRelevant(cfg: Config, r: Run, q: Question, fetched: seq<Atom>, a: Atom)
    requires r.appended != [] && r.appended[|r.appended| - 1] == a && R.Live(cfg.reflex, r.appended, |r.appended| - 1)
    requires q == Question(a.world, None)
    ensures Relevant(cfg, r, q, fetched, a)
  {
    hide R.Live;
    assert Recent(cfg, r.appended, q, a);
  }
}
