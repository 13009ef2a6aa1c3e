/**
 What a collection takes, in terms of the stored atoms alone: their labels, links, times and importance,
 and the labels that a world's policy is read from. No policy value, day length or order of application
 is named; where the code folds labels into a policy, the lemmas here find the label that decides.
 */
module Eviction {
  import opened Prelude
  import opened Text
  import opened Atoms
  import opened Policy
  import Gc

  // ---------------------------------------------------------------- the labels of a policy

  /**
   The worlds whose atoms' labels govern `w`, later ones over earlier ones: `w` itself, the world named
   after it with `policy:` in front, and for a tenant's world that tenant's `policy` world.
   */
  ghost predicate Governs(k: int, v: WorldKey, w: WorldKey) {
    || (k == 0 && v == w)
    || (k == 1 && v == "policy:" + w)
    || (k == 2 && exists t, rest :: '/' !in t && w == "tenant:" + t + "/" + rest && v == "tenant:" + t + "/policy")
  }

  /** A place of a label: which governing world, which of its atoms, which label of that atom. */
  datatype Place = Place(k: int, world: WorldKey, i: int, j: int)

  ghost predicate Holds(logs: Logs, w: WorldKey, p: Place, tag: string) {
    && Governs(p.k, p.world, w) && p.world in logs
    && 0 <= p.i < |logs[p.world]| && 0 <= p.j < |logs[p.world][p.i].labels|
    && logs[p.world][p.i].labels[p.j] == tag
  }

  predicate Later(p: Place, q: Place) {
    p.k > q.k || (p.k == q.k && (p.i > q.i || (p.i == q.i && p.j > q.j)))
  }

  /** Some label `prefix` + `value` that can be read as `x` governs `w`, and no later one can be read. */
  ghost predicate Decides<T(!new)>(logs: Logs, w: WorldKey, prefix: string, read: string -> Option<T>, x: T) {
    exists p, value :: Holds(logs, w, p, prefix + value) && read(value) == Some(x)
      && forall q, other :: Holds(logs, w, q, prefix + other) && Later(q, p) ==> read(other).None?
  }

  ghost predicate Undecided<T(!new)>(logs: Logs, w: WorldKey, prefix: string, read: string -> Option<T>) {
    forall p, value :: Holds(logs, w, p, prefix + value) ==> read(value).None?
  }

  /** Every log holds atoms of its own world, as appends see to. */
  ghost predicate OwnWorlds(logs: Logs) {
    forall w, a :: w in logs && a in logs[w] ==> a.world == w
  }

  lemma {:induction false} LastReadingConcat<T>(read: string -> Option<T>, x: seq<string>, y: seq<string>)
    ensures LastReading(read, x + y) == OrElse(LastReading(read, y), LastReading(read, x))
  {
    if y == [] {
      assert x + y == x;
    } else {
      var n := |y| - 1;
      assert x + y == (x + y[..n]) + [y[n]];
      assert y == y[..n] + [y[n]];
      LastReadingSnoc(read, x + y[..n], y[n]);
      LastReadingSnoc(read, y[..n], y[n]);
      LastReadingConcat(read, x, y[..n]);
    }
  }

  /** The last label that can be read. */
  lemma {:induction false} LastLabel<T>(read: string -> Option<T>, labels: seq<string>) returns (j: int)
    ensures match LastReading(read, labels)
            case None => forall n :: 0 <= n < |labels| ==> read(labels[n]).None?
            case Some(x) => 0 <= j < |labels| && read(labels[j]) == Some(x)
                            && forall n :: j < n < |labels| ==> read(labels[n]).None?
  {
    j := |labels| - 1;
    if labels != [] && read(labels[j]).None? {
      var front := labels[..j];
      assert labels == front + [labels[j]];
      j := LastLabel(read, front);
      assert forall n :: 0 <= n < |front| ==> labels[n] == front[n];
    }
  }

  /** The last label that can be read among those of some atoms, and where it is. */
  lemma {:induction false} LastAtom<T>(read: string -> Option<T>, atoms: seq<Atom>) returns (i: int, j: int)
    ensures match LastReading(read, LabelsOf(atoms))
            case None =>
              forall m, n :: 0 <= m < |atoms| && 0 <= n < |atoms[m].labels| ==> read(atoms[m].labels[n]).None?
            case Some(x) =>
              && 0 <= i < |atoms| && 0 <= j < |atoms[i].labels| && read(atoms[i].labels[j]) == Some(x)
              && forall m, n :: 0 <= m < |atoms| && 0 <= n < |atoms[m].labels| && (m > i || (m == i && n > j)) ==>
                   read(atoms[m].labels[n]).None?
  {
    i, j := 0, 0;
    if atoms != [] {
      hide LastReading;
      var rest := atoms[1..];
      LastReadingConcat(read, atoms[0].labels, LabelsOf(rest));
      i, j := LastAtom(read, rest);
      assert forall m :: 0 < m < |atoms| ==> atoms[m] == rest[m - 1];
      if LastReading(read, LabelsOf(rest)).Some? {
        i := i + 1;
      } else {
        i := 0;
        j := LastLabel(read, atoms[0].labels);
      }
    }
  }

  // ---------------------------------------------------------------- the worlds that govern

  function Source(w: WorldKey, k: int): Option<WorldKey> {
    if k == 0 then Some(w)
    else if k == 1 then Some("policy:" + w)
    else if k == 2 then TenantPolicyWorld(w)
    else None
  }

  lemma TenantWorldIs(w: WorldKey, v: WorldKey)
    ensures TenantPolicyWorld(w) == Some(v) <==>
              exists t, rest :: '/' !in t && w == "tenant:" + t + "/" + rest && v == "tenant:" + t + "/policy"
  {
    hide TenantPolicyWorld;
    if t, rest :| '/' !in t && w == "tenant:" + t + "/" + rest && v == "tenant:" + t + "/policy" {
      TenantSplits(w, t, rest);
    }
    if TenantPolicyWorld(w) == Some(v) {
      var t, rest := TenantOf(w);
      assert v == "tenant:" + t + "/policy";
    }
  }

  lemma TenantOf(w: WorldKey) returns (t: string, rest: string)
    requires TenantPolicyWorld(w).Some?
    ensures '/' !in t && w == "tenant:" + t + "/" + rest
    ensures TenantPolicyWorld(w) == Some("tenant:" + t + "/policy")
  {
    hide UpTo;
    var tail := Strip(w, "tenant:").value;
    TailSplits(tail);
    t := UpTo(tail, '/');
    rest := tail[|t| + 1..];
    assert w == "tenant:" + tail;
  }

  lemma TailSplits(s: string)
    requires '/' in s
    ensures var t := UpTo(s, '/');
            '/' !in t && |t| < |s| && s == t + "/" + s[|t| + 1..]
  {
    var t := UpTo(s, '/');
    assert s[..|t|] == t && s[|t|] == '/';
  }

  lemma TenantSplits(w: WorldKey, t: string, rest: string)
    requires '/' !in t && w == "tenant:" + t + "/" + rest
    ensures TenantPolicyWorld(w) == Some("tenant:" + t + "/policy")
  {
    var tail := t + "/" + rest;
    assert w == "tenant:" + tail;
    assert Strip(w, "tenant:") == Some(tail);
    UpToFirst(t, '/', rest);
    assert tail[|t|] == '/';
  }

  lemma GovernsIs(k: int, v: WorldKey, w: WorldKey)
    ensures Governs(k, v, w) <==> Source(w, k) == Some(v)
  {
    if k == 2 { TenantWorldIs(w, v); }
  }

  function AtomsAt(logs: Logs, w: WorldKey, k: int): seq<Atom> {
    match Source(w, k)
    case None => []
    case Some(v) => LogOf(logs, v)
  }

  lemma {:induction false} LabelsConcat(x: seq<Atom>, y: seq<Atom>)
    ensures LabelsOf(x + y) == LabelsOf(x) + LabelsOf(y)
  {
    if x == [] {
      assert x + y == y;
    } else {
      assert (x + y)[0] == x[0] && (x + y)[1..] == x[1..] + y;
      LabelsConcat(x[1..], y);
      assert x[0].labels + (LabelsOf(x[1..]) + LabelsOf(y)) == x[0].labels + LabelsOf(x[1..]) + LabelsOf(y);
    }
  }

  lemma LabelsBySource(logs: Logs, w: WorldKey)
    requires OwnWorlds(logs)
    ensures LabelsOf(PolicyAtoms(logs, w))
         == LabelsOf(AtomsAt(logs, w, 0)) + LabelsOf(AtomsAt(logs, w, 1)) + LabelsOf(AtomsAt(logs, w, 2))
  {
    hide LabelsOf, TenantPolicyWorld, Keep;
    var x, y, z := AtomsAt(logs, w, 0), AtomsAt(logs, w, 1), AtomsAt(logs, w, 2);
    KeepAll((a: Atom) => a.world == w, x);
    assert PolicyAtoms(logs, w) == x + y + z;
    LabelsConcat(x, y);
    LabelsConcat(x + y, z);
  }

  // ---------------------------------------------------------------- the label that decides

  function Reader<T>(prefix: string, read: string -> Option<T>): string -> Option<T> {
    (tag: string) => if Strip(tag, prefix).Some? then read(Strip(tag, prefix).value) else None
  }

  lemma StripIs(prefix: string, value: string)
    ensures Strip(prefix + value, prefix) == Some(value)
  {
  }

  lemma HeldAt(logs: Logs, w: WorldKey, p: Place, tag: string)
    ensures Holds(logs, w, p, tag) <==>
              && Source(w, p.k) == Some(p.world)
              && 0 <= p.i < |AtomsAt(logs, w, p.k)| && 0 <= p.j < |AtomsAt(logs, w, p.k)[p.i].labels|
              && AtomsAt(logs, w, p.k)[p.i].labels[p.j] == tag
  {
    GovernsIs(p.k, p.world, w);
  }

  /** The last of the governing worlds with a label that can be read has the deciding one. */
  lemma LastDecides<T(!new)>(logs: Logs, w: WorldKey, prefix: string, read: string -> Option<T>, k: int, x: T)
    requires 0 <= k <= 2 && LastReading(Reader(prefix, read), LabelsOf(AtomsAt(logs, w, k))) == Some(x)
    requires forall m :: k < m <= 2 ==> LastReading(Reader(prefix, read), LabelsOf(AtomsAt(logs, w, m))) == None
    ensures Decides(logs, w, prefix, read, x)
  {
    hide LastReading, LabelsOf, AtomsAt, Source, Holds;
    var r := Reader(prefix, read);
    var atoms := AtomsAt(logs, w, k);
    var i, j := LastAtom(r, atoms);
    SourceNamed(logs, w, k);
    var p := Place(k, Source(w, k).value, i, j);
    var tag := atoms[i].labels[j];
    HeldAt(logs, w, p, tag);
    var value := Strip(tag, prefix).value;
    forall q, other | Holds(logs, w, q, prefix + other) && Later(q, p)
      ensures read(other).None?
    {
      HeldAt(logs, w, q, prefix + other);
      StripIs(prefix, other);
      SourceRange(w, q.k);
      var m, n := LastAtom(r, AtomsAt(logs, w, q.k));
    }
    assert Holds(logs, w, p, prefix + value);
  }

  lemma SourceNamed(logs: Logs, w: WorldKey, k: int)
    requires AtomsAt(logs, w, k) != []
    ensures Source(w, k).Some?
  {
  }

  lemma SourceRange(w: WorldKey, k: int)
    requires Source(w, k).Some?
    ensures 0 <= k <= 2
  {
  }

  /** What the fold of labels reads is what the deciding label says. */
  lemma ReadingDecides<T(!new)>(logs: Logs, w: WorldKey, prefix: string, read: string -> Option<T>)
    requires OwnWorlds(logs)
    ensures match LastReading(Reader(prefix, read), LabelsOf(PolicyAtoms(logs, w)))
            case Some(x) => Decides(logs, w, prefix, read, x)
            case None => Undecided(logs, w, prefix, read)
  {
    hide LastReading, LabelsOf, AtomsAt, PolicyAtoms, Decides, Holds;
    var r := Reader(prefix, read);
    LabelsBySource(logs, w);
    var x, y, z := LabelsOf(AtomsAt(logs, w, 0)), LabelsOf(AtomsAt(logs, w, 1)), LabelsOf(AtomsAt(logs, w, 2));
    LastReadingConcat(r, x, y);
    LastReadingConcat(r, x + y, z);
    if LastReading(r, z).Some? {
      LastDecides(logs, w, prefix, read, 2, LastReading(r, z).value);
    } else if LastReading(r, y).Some? {
      LastDecides(logs, w, prefix, read, 1, LastReading(r, y).value);
    } else if LastReading(r, x).Some? {
      LastDecides(logs, w, prefix, read, 0, LastReading(r, x).value);
    } else {
      forall p, value | Holds(logs, w, p, prefix + value)
        ensures read(value).None?
      {
        HeldAt(logs, w, p, prefix + value);
        StripIs(prefix, value);
        SourceRange(w, p.k);
        var m, n := LastAtom(r, AtomsAt(logs, w, p.k));
      }
    }
  }

  /** At most one value is decided, and none when nothing can be read. */
  lemma DecidesOnce<T(!new)>(logs: Logs, w: WorldKey, prefix: string, read: string -> Option<T>, x: T, y: T)
    requires Decides(logs, w, prefix, read, x)
    ensures Decides(logs, w, prefix, read, y) ==> x == y
    ensures !Undecided(logs, w, prefix, read)
  {
    hide Source;
    var p, value :| Holds(logs, w, p, prefix + value) && read(value) == Some(x)
      && forall q, other :: Holds(logs, w, q, prefix + other) && Later(q, p) ==> read(other).None?;
    if Decides(logs, w, prefix, read, y) {
      var q, other :| Holds(logs, w, q, prefix + other) && read(other) == Some(y)
        && forall p', value' :: Holds(logs, w, p', prefix + value') && Later(p', q) ==> read(value').None?;
      GovernsIs(p.k, p.world, w);
      GovernsIs(q.k, q.world, w);
      assert !Later(q, p) && !Later(p, q);
      assert p == q;
      StripIs(prefix, value);
      StripIs(prefix, other);
    }
  }

  lemma {:induction false} LastReadingSame<T>(f: string -> Option<T>, g: string -> Option<T>, labels: seq<string>)
    requires forall tag :: f(tag) == g(tag)
    ensures LastReading(f, labels) == LastReading(g, labels)
  {
    if labels != [] { LastReadingSame(f, g, labels[..|labels| - 1]); }
  }

  // ---------------------------------------------------------------- what a policy says

  /** The days that atoms of `w` are kept for, 365 if no label says, and never below the floor. */
  ghost predicate KeptFor(logs: Logs, w: WorldKey, days: nat) {
    exists d: nat, m: nat :: Retention(logs, w, d) && Floor(logs, w, m) && days == if d < m then m else d
  }

  ghost predicate Retention(logs: Logs, w: WorldKey, d: nat) {
    Decides(logs, w, "policy:retention_days=", ParseU64, d)
    || (Undecided(logs, w, "policy:retention_days=", ParseU64) && d == 365)
  }

  ghost predicate Floor(logs: Logs, w: WorldKey, m: nat) {
    Decides(logs, w, "policy:retention_min_days=", ParseU64, m)
    || (Undecided(logs, w, "policy:retention_min_days=", ParseU64) && m == 0)
  }

  ghost predicate Minimum(ps: Parsers, logs: Logs, w: WorldKey, x: real) {
    Decides(logs, w, "policy:min_importance=", ps.fraction, x)
  }

  lemma DaysRead(logs: Logs, w: WorldKey, prefix: string)
    ensures LastReading(DaysReader(prefix), LabelsOf(PolicyAtoms(logs, w)))
         == LastReading(Reader(prefix, ParseU64), LabelsOf(PolicyAtoms(logs, w)))
  {
    LastReadingSame(DaysReader(prefix), Reader(prefix, ParseU64), LabelsOf(PolicyAtoms(logs, w)));
  }

  lemma DecidedDays(logs: Logs, w: WorldKey, prefix: string, d: nat)
    requires Decides(logs, w, prefix, ParseU64, d)
    ensures d < U64_LIMIT
  {
    hide ParseU64, Holds;
  }

  /** The policy that a collection reads has the days the labels decide. */
  lemma DaysAreKeptFor(ps: Parsers, logs: Logs, w: WorldKey, days: nat)
    requires OwnWorlds(logs)
    ensures KeptFor(logs, w, days) <==> ParsePolicy(ps, logs, w).retentionDays == Some(days)
    ensures KeptFor(logs, w, days) ==> days < U64_LIMIT
  {
    hide Decides, Undecided, LastReading, ParsePolicy, ParseU64, LabelsOf;
    PolicyMeaning(ps, logs, w);
    DaysRead(logs, w, RETENTION);
    DaysRead(logs, w, RETENTION_MIN);
    ReadingDecides(logs, w, RETENTION, ParseU64);
    ReadingDecides(logs, w, RETENTION_MIN, ParseU64);
    var labels := LabelsOf(PolicyAtoms(logs, w));
    var d := LastReading(Reader(RETENTION, ParseU64), labels);
    var m := LastReading(Reader(RETENTION_MIN, ParseU64), labels);
    var d', m' := if d.Some? then d.value else 365, if m.Some? then m.value else 0;
    assert Retention(logs, w, d') && Floor(logs, w, m');
    if KeptFor(logs, w, days) {
      var x: nat, y: nat :| Retention(logs, w, x) && Floor(logs, w, y) && days == if x < y then y else x;
      OneRetention(logs, w, x, d');
      OneFloor(logs, w, y, m');
    }
  }

  lemma OneRetention(logs: Logs, w: WorldKey, x: nat, y: nat)
    requires Retention(logs, w, x) && Retention(logs, w, y)
    ensures x == y && x < U64_LIMIT
  {
    hide Decides, Undecided;
    if Decides(logs, w, "policy:retention_days=", ParseU64, x) {
      DecidesOnce(logs, w, "policy:retention_days=", ParseU64, x, y);
      DecidedDays(logs, w, "policy:retention_days=", x);
    } else if Decides(logs, w, "policy:retention_days=", ParseU64, y) {
      DecidesOnce(logs, w, "policy:retention_days=", ParseU64, y, x);
    }
  }

  lemma OneFloor(logs: Logs, w: WorldKey, x: nat, y: nat)
    requires Floor(logs, w, x) && Floor(logs, w, y)
    ensures x == y && x < U64_LIMIT
  {
    hide Decides, Undecided;
    if Decides(logs, w, "policy:retention_min_days=", ParseU64, x) {
      DecidesOnce(logs, w, "policy:retention_min_days=", ParseU64, x, y);
      DecidedDays(logs, w, "policy:retention_min_days=", x);
    } else if Decides(logs, w, "policy:retention_min_days=", ParseU64, y) {
      DecidesOnce(logs, w, "policy:retention_min_days=", ParseU64, y, x);
    }
  }

  /** The policy that a collection reads has the minimum the labels decide. */
  lemma MinimumIs(ps: Parsers, logs: Logs, w: WorldKey, x: real)
    requires OwnWorlds(logs)
    ensures Minimum(ps, logs, w, x) <==> ParsePolicy(ps, logs, w).minImportance == Some(x)
  {
    hide Decides, Undecided, LastReading, ParsePolicy, LabelsOf;
    PolicyMeaning(ps, logs, w);
    var labels := LabelsOf(PolicyAtoms(logs, w));
    LastReadingSame(FractionReader(ps, MIN_IMPORTANCE), Reader(MIN_IMPORTANCE, ps.fraction), labels);
    ReadingDecides(logs, w, MIN_IMPORTANCE, ps.fraction);
    var read := LastReading(Reader(MIN_IMPORTANCE, ps.fraction), labels);
    if Minimum(ps, logs, w, x) {
      DecidesOnce(logs, w, "policy:min_importance=", ps.fraction, x, if read.Some? then read.value else x);
    }
  }

  lemma {:induction false} LabelPlace(atoms: seq<Atom>, tag: string)
    ensures tag in LabelsOf(atoms) <==>
              exists i, j :: 0 <= i < |atoms| && 0 <= j < |atoms[i].labels| && atoms[i].labels[j] == tag
  {
    if atoms != [] {
      var rest := atoms[1..];
      LabelPlace(rest, tag);
      assert forall i :: 0 <= i < |rest| ==> rest[i] == atoms[i + 1];
      if tag in LabelsOf(rest) {
        var i, j :| 0 <= i < |rest| && 0 <= j < |rest[i].labels| && rest[i].labels[j] == tag;
        assert atoms[i + 1].labels[j] == tag;
      }
      if i, j :| 0 <= i < |atoms| && 0 <= j < |atoms[i].labels| && atoms[i].labels[j] == tag {
        if i > 0 { assert rest[i - 1].labels[j] == tag; }
      }
    }
  }

  lemma {:induction false} ValuesIn(prefix: string, labels: seq<string>, v: string)
    ensures v in ValuesAfter(prefix, labels) <==> v != "" && prefix + v in labels
  {
    hide Strip;
    if labels != [] {
      var n := |labels| - 1;
      var front, tag := labels[..n], labels[n];
      assert labels == front + [tag];
      ValuesIn(prefix, front, v);
      ValuesAfterSnoc(prefix, front, tag);
      StripIs(prefix, v);
      if Strip(tag, prefix).Some? { assert tag == prefix + Strip(tag, prefix).value; }
    }
  }

  lemma LabelHeld(logs: Logs, w: WorldKey, tag: string)
    requires OwnWorlds(logs)
    ensures tag in LabelsOf(PolicyAtoms(logs, w)) <==> exists p :: Holds(logs, w, p, tag)
  {
    hide LabelsOf, AtomsAt, PolicyAtoms, Holds, Source;
    LabelsBySource(logs, w);
    forall k ensures tag in LabelsOf(AtomsAt(logs, w, k)) <==> exists p: Place :: p.k == k && Holds(logs, w, p, tag) {
      LabelPlace(AtomsAt(logs, w, k), tag);
      if tag in LabelsOf(AtomsAt(logs, w, k)) {
        var i, j :| 0 <= i < |AtomsAt(logs, w, k)| && 0 <= j < |AtomsAt(logs, w, k)[i].labels|
                    && AtomsAt(logs, w, k)[i].labels[j] == tag;
        SourceNamed(logs, w, k);
        HeldAt(logs, w, Place(k, Source(w, k).value, i, j), tag);
      }
      if p: Place :| p.k == k && Holds(logs, w, p, tag) { HeldAt(logs, w, p, tag); }
    }
    if p :| Holds(logs, w, p, tag) {
      HeldAt(logs, w, p, tag);
      SourceRange(w, p.k);
    }
  }

  /** Replication is allowed to, or denied to, exactly what some governing label names. */
  lemma ReplicationListed(ps: Parsers, logs: Logs, w: WorldKey, v: string)
    requires OwnWorlds(logs)
    ensures v in ParsePolicy(ps, logs, w).allow <==>
              v != "" && exists p :: Holds(logs, w, p, "policy:replication_allow=" + v)
    ensures v in ParsePolicy(ps, logs, w).deny <==>
              v != "" && exists p :: Holds(logs, w, p, "policy:replication_deny=" + v)
  {
    hide ParsePolicy, Holds, ValuesAfter, LastReading, LabelsOf;
    PolicyMeaning(ps, logs, w);
    var labels := LabelsOf(PolicyAtoms(logs, w));
    ValuesIn(ALLOW, labels, v);
    ValuesIn(DENY, labels, v);
    LabelHeld(logs, w, ALLOW + v);
    LabelHeld(logs, w, DENY + v);
  }

  // ---------------------------------------------------------------- what a collection takes

  /** Policy and world metadata atoms, and targets of links stored beside them. */
  ghost predicate Shielded(log: seq<Atom>, a: Atom) {
    || (exists l :: l in a.labels && ("policy:" <= l || "world_meta" <= l))
    || (exists b, l :: b in log && l in b.links && l.target == a.id)
  }

  lemma LabelShields(a: Atom)
    ensures Gc.IsPolicyAtom(a) || Gc.IsWorldMeta(a) <==>
              exists l :: l in a.labels && ("policy:" <= l || "world_meta" <= l)
  {
    if l :| l in a.labels && ("policy:" <= l || "world_meta" <= l) {
      var i :| 0 <= i < |a.labels| && a.labels[i] == l;
      assert POLICY <= a.labels[i] || "world_meta" <= a.labels[i];
    }
    if Gc.IsPolicyAtom(a) || Gc.IsWorldMeta(a) {
      var i :| 0 <= i < |a.labels| && (POLICY <= a.labels[i] || "world_meta" <= a.labels[i]);
      assert a.labels[i] in a.labels;
    }
  }

  lemma LinkShields(log: seq<Atom>, a: Atom)
    ensures Gc.Referenced(log, a.id) <==> exists b, l :: b in log && l in b.links && l.target == a.id
  {
    if b, l :| b in log && l in b.links && l.target == a.id {
      var i :| 0 <= i < |log| && log[i] == b;
      var j :| 0 <= j < |b.links| && b.links[j] == l;
      assert Gc.LinksTo(log[i], a.id);
    }
    if Gc.Referenced(log, a.id) {
      var i :| 0 <= i < |log| && Gc.LinksTo(log[i], a.id);
      var j :| 0 <= j < |log[i].links| && log[i].links[j].target == a.id;
      assert log[i] in log && log[i].links[j] in log[i].links;
    }
  }

  lemma ShieldedIs(log: seq<Atom>, a: Atom)
    ensures Gc.Protected(log, a) <==> Shielded(log, a)
  {
    hide Gc.IsPolicyAtom, Gc.IsWorldMeta, Gc.Referenced;
    LabelShields(a);
    LinkShields(log, a);
  }

  /** `days` as a signed 64-bit number, in nanoseconds. */
  function Span(days: nat): int {
    (if days < 0x8000_0000_0000_0000 then days else days - 0x1_0000_0000_0000_0000) * 86_400 * 1_000_000_000
  }

  /** Some atom of the log is newer by more than the days its world keeps atoms for. */
  ghost predicate Outlived(ps: Parsers, log: seq<Atom>, days: nat, a: Atom) {
    days > 0 && exists b, t, u :: ps.time(a.timestamp) == Some(t) && b in log && ps.time(b.timestamp) == Some(u)
                                  && u - t > Span(days)
  }

  lemma OutlivedIs(ps: Parsers, p: Policy, log: seq<Atom>, clock: int, days: nat, a: Atom)
    requires a in log && p.retentionDays == Some(days) && days < U64_LIMIT
    ensures Gc.Expired(ps, p, Gc.LatestTime(ps, log, clock), a) <==> Outlived(ps, log, days, a)
  {
    hide Gc.LatestTime;
    SpanIs(days);
    if ps.time(a.timestamp).Some? {
      Gc.LatestBounds(ps, log, clock, a);
      Gc.NewestIs(ps, log, clock);
      var newest :| newest in log && ps.time(newest.timestamp) == Some(Gc.LatestTime(ps, log, clock));
      if b, u :| b in log && ps.time(b.timestamp) == Some(u) && u - ps.time(a.timestamp).value > Span(days) {
        Gc.LatestBounds(ps, log, clock, b);
      }
    }
  }

  lemma SpanIs(days: nat)
    requires days < U64_LIMIT
    ensures Gc.AsI64(days) * Gc.DAY_NANOS == Span(days)
  {
    assert days % U64_LIMIT == days;
  }

  ghost predicate Unimportant(ps: Parsers, logs: Logs, w: WorldKey, a: Atom) {
    exists x :: Minimum(ps, logs, w, x) && a.importance < x
  }

  /**
   What a collection takes from a world it gets to: the atoms that are not shielded, and either outlived
   by the days their world keeps atoms for, or less important than the minimum it asks for.
   */
  lemma EvictedExactly(ps: Parsers, logs: Logs, clock: int, visit: set<WorldKey>, w: WorldKey, days: nat, a: Atom)
    requires OwnWorlds(logs) && w in visit && w in logs && a in logs[w] && KeptFor(logs, w, days)
    ensures a !in LogOf(Gc.Collected(ps, logs, clock, visit), w) <==>
              !Shielded(logs[w], a) && (Outlived(ps, logs[w], days, a) || Unimportant(ps, logs, w, a))
  {
    hide ParsePolicy, Shielded, Outlived, Minimum, KeptFor, Gc.Protected, Gc.Expired, Gc.Collected, Gc.LatestTime;
    DaysAreKeptFor(ps, logs, w, days);
    ShieldedIs(logs[w], a);
    OutlivedIs(ps, ParsePolicy(ps, logs, w), logs[w], clock, days, a);
    forall x ensures Minimum(ps, logs, w, x) <==> ParsePolicy(ps, logs, w).minImportance == Some(x) {
      MinimumIs(ps, logs, w, x);
    }
    Gc.DeletedExactly(ps, logs, clock, visit, w, a);
  }

  /** And what it leaves is in the old order; worlds it does not get to stay as they are. */
  lemma SurvivorsInOrder(ps: Parsers, logs: Logs, clock: int, visit: set<WorldKey>, w: WorldKey, i: nat, j: nat)
    requires i < j < |LogOf(Gc.Collected(ps, logs, clock, visit), w)|
    ensures var left := LogOf(Gc.Collected(ps, logs, clock, visit), w);
            w in logs && exists p, q :: 0 <= p < q < |logs[w]| && logs[w][p] == left[i] && logs[w][q] == left[j]
  {
    hide Gc.Doomed, Keep;
    var left := LogOf(Gc.Collected(ps, logs, clock, visit), w);
    var atoms := LogOf(logs, w);
    var p := ParsePolicy(ps, logs, w);
    var now := Gc.LatestTime(ps, atoms, clock);
    if w in visit {
      KeepInOrder((a: Atom) => !Gc.Doomed(ps, p, atoms, now, a), atoms, i, j);
    } else {
      assert left == atoms && atoms[i] == left[i] && atoms[j] == left[j];
    }
  }

  /** Some number of days is decided for every world, so the condition is about every collection. */
  lemma KeptForSome(ps: Parsers, logs: Logs, w: WorldKey)
    requires OwnWorlds(logs)
    ensures exists days :: KeptFor(logs, w, days)
  {
    hide KeptFor, ParsePolicy, LastReading;
    PolicyMeaning(ps, logs, w);
    DaysAreKeptFor(ps, logs, w, ParsePolicy(ps, logs, w).retentionDays.value);
  }

  /**
   A world ends the pass when it keeps atoms for more days than fit in 64 bits of seconds, either way,
   and has an atom to compare with: one that is not shielded and whose timestamp can be read.
   */
  lemma PanicsExactly(ps: Parsers, logs: Logs, w: WorldKey, days: nat)
    requires OwnWorlds(logs) && KeptFor(logs, w, days)
    ensures Gc.PanicsIn(ps, logs, w) <==>
              && 106_751_991_167_300 < days < 0x1_0000_0000_0000_0000 - 106_751_991_167_300
              && exists a :: w in logs && a in logs[w] && !Shielded(logs[w], a) && ps.time(a.timestamp).Some?
  {
    hide ParsePolicy, Shielded, KeptFor, Gc.Protected, Gc.Overflows;
    DaysAreKeptFor(ps, logs, w, days);
    Gc.OverflowRange(days);
    var log := LogOf(logs, w);
    forall a ensures Gc.Protected(log, a) <==> Shielded(log, a) { ShieldedIs(log, a); }
    if a :| a in log && !Shielded(log, a) && ps.time(a.timestamp).Some? {
      var i :| 0 <= i < |log| && log[i] == a;
      assert !Gc.Protected(log, log[i]);
    }
  }
}
