/** Retention policy as atom labels: how labels fold into a policy, and where policy atoms come from. */
module Policy {
  import opened Prelude
  import opened Text
  import opened Atoms

  type Logs = map<WorldKey, seq<Atom>>

  function LogOf(logs: Logs, w: WorldKey): seq<Atom> {
    if w in logs then logs[w] else []
  }

  /** Foreign parsers: timestamps to nanoseconds, and decimal fractions. */
  datatype Parsers = Parsers(time: string -> Option<int>, fraction: string -> Option<real>)

  datatype Policy = Policy(
    retentionDays: Option<nat>,
    retentionMinDays: Option<nat>,
    minImportance: Option<real>,
    allow: seq<string>,
    deny: seq<string>)

  const DEFAULT_POLICY := Policy(Some(365), None, None, [], [])

  const POLICY: string := "policy:"
  const RETENTION: string := "policy:retention_days="
  const RETENTION_MIN: string := "policy:retention_min_days="
  const MIN_IMPORTANCE: string := "policy:min_importance="
  const ALLOW: string := "policy:replication_allow="
  const DENY: string := "policy:replication_deny="

  function Strip(s: string, prefix: string): (r: Option<string>)
    ensures r.Some? ==> s == prefix + r.value
  {
    if prefix <= s then Some(s[|prefix|..]) else None
  }

  function ParseDays(s: Option<string>): Option<nat> {
    if s.None? then None else ParseU64(s.value)
  }

  /** One label, tried against each known prefix in turn. */
  function ApplyLabel(ps: Parsers, p0: Policy, tag: string): Policy {
    var days := ParseDays(Strip(tag, RETENTION));
    var p1 := if days.Some? then p0.(retentionDays := days) else p0;
    var minDays := ParseDays(Strip(tag, RETENTION_MIN));
    var p2 := if minDays.Some? then p1.(retentionMinDays := minDays) else p1;
    var importance := if Strip(tag, MIN_IMPORTANCE).Some? then ps.fraction(Strip(tag, MIN_IMPORTANCE).value) else None;
    var p3 := if importance.Some? then p2.(minImportance := importance) else p2;
    var allow := Strip(tag, ALLOW);
    var p4 := if allow.Some? && allow.value != [] then p3.(allow := p3.allow + [allow.value]) else p3;
    var deny := Strip(tag, DENY);
    if deny.Some? && deny.value != [] then p4.(deny := p4.deny + [deny.value]) else p4
  }

  function ApplyLabels(ps: Parsers, p: Policy, labels: seq<string>): Policy
    decreases |labels|
  {
    if labels == [] then p else ApplyLabels(ps, ApplyLabel(ps, p, labels[0]), labels[1..])
  }

  function ApplyAtoms(ps: Parsers, p: Policy, atoms: seq<Atom>): Policy
    decreases |atoms|
  {
    if atoms == [] then p else ApplyAtoms(ps, ApplyLabels(ps, p, atoms[0].labels), atoms[1..])
  }

  /** A retention floor raises a shorter retention. */
  function Settle(p: Policy): Policy {
    if p.retentionMinDays.Some? && (p.retentionDays.None? || p.retentionDays.value < p.retentionMinDays.value)
    then p.(retentionDays := p.retentionMinDays) else p
  }

  /** For `tenant:<id>/...`, the tenant's policy world. */
  function TenantPolicyWorld(w: WorldKey): Option<WorldKey> {
    match Strip(w, "tenant:")
    case None => None
    case Some(rest) => if '/' in rest then Some("tenant:" + UpTo(rest, '/') + "/policy") else None
  }

  /** The atoms a world's policy is read from, in order. */
  function PolicyAtoms(logs: Logs, w: WorldKey): seq<Atom> {
    Keep((a: Atom) => a.world == w, LogOf(logs, w))
    + LogOf(logs, POLICY + w)
    + (match TenantPolicyWorld(w) case None => [] case Some(t) => LogOf(logs, t))
  }

  function ParsePolicy(ps: Parsers, logs: Logs, w: WorldKey): Policy {
    Settle(ApplyAtoms(ps, DEFAULT_POLICY, PolicyAtoms(logs, w)))
  }

  predicate HasPolicyLabel(a: Atom) {
    exists i :: 0 <= i < |a.labels| && POLICY <= a.labels[i]
  }

  // ---------------------------------------------------------------- only policy labels count

  lemma PrefixOfPolicy(prefix: string, tag: string)
    requires POLICY <= prefix && prefix <= tag
    ensures POLICY <= tag
  {
  }

  lemma OtherLabel(ps: Parsers, p: Policy, tag: string)
    requires !(POLICY <= tag)
    ensures ApplyLabel(ps, p, tag) == p
  {
    assert forall prefix :: prefix in [RETENTION, RETENTION_MIN, MIN_IMPORTANCE, ALLOW, DENY] ==> POLICY <= prefix;
    forall prefix | prefix in [RETENTION, RETENTION_MIN, MIN_IMPORTANCE, ALLOW, DENY]
      ensures !(prefix <= tag)
    {
      if prefix <= tag { PrefixOfPolicy(prefix, tag); }
    }
    assert RETENTION in [RETENTION, RETENTION_MIN, MIN_IMPORTANCE, ALLOW, DENY];
    assert RETENTION_MIN in [RETENTION, RETENTION_MIN, MIN_IMPORTANCE, ALLOW, DENY];
    assert MIN_IMPORTANCE in [RETENTION, RETENTION_MIN, MIN_IMPORTANCE, ALLOW, DENY];
    assert ALLOW in [RETENTION, RETENTION_MIN, MIN_IMPORTANCE, ALLOW, DENY];
    assert DENY in [RETENTION, RETENTION_MIN, MIN_IMPORTANCE, ALLOW, DENY];
  }

  lemma {:induction false} OtherLabels(ps: Parsers, p: Policy, labels: seq<string>)
    requires forall i :: 0 <= i < |labels| ==> !(POLICY <= labels[i])
    ensures ApplyLabels(ps, p, labels) == p
  {
    hide ApplyLabel;
    if labels != [] {
      OtherLabel(ps, p, labels[0]);
      OtherLabels(ps, p, labels[1..]);
    }
  }

  /** Atoms without a policy label can come and go without changing what the fold yields. */
  lemma {:induction false} OnlyPolicyAtomsCount(ps: Parsers, p: Policy, atoms: seq<Atom>)
    ensures ApplyAtoms(ps, p, Keep(HasPolicyLabel, atoms)) == ApplyAtoms(ps, p, atoms)
    decreases |atoms|
  {
    hide ApplyLabels;
    if atoms != [] {
      var a := atoms[0];
      assert atoms == [a] + atoms[1..];
      KeepCons(HasPolicyLabel, a, atoms[1..]);
      if HasPolicyLabel(a) {
        var rest := Keep(HasPolicyLabel, atoms[1..]);
        assert ([a] + rest)[1..] == rest;
        OnlyPolicyAtomsCount(ps, ApplyLabels(ps, p, a.labels), atoms[1..]);
      } else {
        OtherLabels(ps, p, a.labels);
        OnlyPolicyAtomsCount(ps, p, atoms[1..]);
      }
    }
  }

  /** The logs agree on every atom that carries a policy label, in order. */
  ghost predicate SamePolicyAtoms(logs: Logs, logs': Logs) {
    forall w :: Keep(HasPolicyLabel, LogOf(logs', w)) == Keep(HasPolicyLabel, LogOf(logs, w))
  }

  /** Stores that agree on policy-labelled atoms give every world the same policy. */
  lemma PolicyDependsOnPolicyAtoms(ps: Parsers, logs: Logs, logs': Logs, w: WorldKey)
    requires SamePolicyAtoms(logs, logs')
    ensures ParsePolicy(ps, logs', w) == ParsePolicy(ps, logs, w)
  {
    hide Settle, ApplyAtoms, HasPolicyLabel;
    OnlyPolicyAtomsCount(ps, DEFAULT_POLICY, PolicyAtoms(logs, w));
    OnlyPolicyAtomsCount(ps, DEFAULT_POLICY, PolicyAtoms(logs', w));
    PolicyPart(logs, w);
    PolicyPart(logs', w);
    var own := (a: Atom) => a.world == w;
    KeepSwap(own, LogOf(logs, w));
    KeepSwap(own, LogOf(logs', w));
  }

  lemma PolicyPart(logs: Logs, w: WorldKey)
    ensures Keep(HasPolicyLabel, PolicyAtoms(logs, w))
         == Keep(HasPolicyLabel, Keep((a: Atom) => a.world == w, LogOf(logs, w)))
            + Keep(HasPolicyLabel, LogOf(logs, POLICY + w))
            + (match TenantPolicyWorld(w) case None => [] case Some(t) => Keep(HasPolicyLabel, LogOf(logs, t)))
  {
    hide HasPolicyLabel, Keep;
    var own := Keep((a: Atom) => a.world == w, LogOf(logs, w));
    var extra := LogOf(logs, POLICY + w);
    var tenant := match TenantPolicyWorld(w) case None => [] case Some(t) => LogOf(logs, t);
    KeepAppend(HasPolicyLabel, own + extra, tenant);
    KeepAppend(HasPolicyLabel, own, extra);
    KeepNone(HasPolicyLabel, []);
  }

  lemma KeepSwap(f: Atom -> bool, s: seq<Atom>)
    ensures Keep(HasPolicyLabel, Keep(f, s)) == Keep(f, Keep(HasPolicyLabel, s))
  {
    hide HasPolicyLabel, Keep;
    var both := (a: Atom) => HasPolicyLabel(a) && f(a);
    KeepTwice(HasPolicyLabel, f, both, s);
    KeepTwice(f, HasPolicyLabel, both, s);
  }

  // ---------------------------------------------------------------- what the labels amount to

  function LabelsOf(atoms: seq<Atom>): seq<string> {
    if atoms == [] then [] else atoms[0].labels + LabelsOf(atoms[1..])
  }

  /** The last reading that succeeds, if any does. */
  function LastReading<T>(read: string -> Option<T>, labels: seq<string>): Option<T> {
    if labels == [] then None
    else if read(labels[|labels| - 1]).Some? then read(labels[|labels| - 1])
    else LastReading(read, labels[..|labels| - 1])
  }

  /** The nonempty values after a prefix, in label order. */
  function ValuesAfter(prefix: string, labels: seq<string>): seq<string> {
    if labels == [] then []
    else
      var v := Strip(labels[|labels| - 1], prefix);
      ValuesAfter(prefix, labels[..|labels| - 1]) + (if v.Some? && v.value != [] then [v.value] else [])
  }

  function DaysReader(prefix: string): string -> Option<nat> {
    (tag: string) => ParseDays(Strip(tag, prefix))
  }

  function FractionReader(ps: Parsers, prefix: string): string -> Option<real> {
    (tag: string) => if Strip(tag, prefix).Some? then ps.fraction(Strip(tag, prefix).value) else None
  }

  function OrElse<T>(first: Option<T>, second: Option<T>): Option<T> {
    if first.Some? then first else second
  }

  /** A label sequence read field by field, with no reference to any order of application. */
  function Readings(ps: Parsers, labels: seq<string>): Policy {
    Policy(OrElse(LastReading(DaysReader(RETENTION), labels), DEFAULT_POLICY.retentionDays),
           LastReading(DaysReader(RETENTION_MIN), labels),
           LastReading(FractionReader(ps, MIN_IMPORTANCE), labels),
           ValuesAfter(ALLOW, labels), ValuesAfter(DENY, labels))
  }

  lemma {:induction false} ApplyLabelsSnoc(ps: Parsers, p: Policy, labels: seq<string>, tag: string)
    ensures ApplyLabels(ps, p, labels + [tag]) == ApplyLabel(ps, ApplyLabels(ps, p, labels), tag)
    decreases |labels|
  {
    hide ApplyLabel;
    if labels == [] {
      assert ([] + [tag])[1..] == [];
    } else {
      assert (labels + [tag])[1..] == labels[1..] + [tag];
      ApplyLabelsSnoc(ps, ApplyLabel(ps, p, labels[0]), labels[1..], tag);
    }
  }

  lemma {:induction false} ApplyLabelsConcat(ps: Parsers, p: Policy, x: seq<string>, y: seq<string>)
    ensures ApplyLabels(ps, p, x + y) == ApplyLabels(ps, ApplyLabels(ps, p, x), y)
    decreases |x|
  {
    hide ApplyLabel;
    if x == [] {
      assert x + y == y;
    } else {
      assert (x + y)[1..] == x[1..] + y;
      ApplyLabelsConcat(ps, ApplyLabel(ps, p, x[0]), x[1..], y);
    }
  }

  lemma {:induction false} AtomsAreLabels(ps: Parsers, p: Policy, atoms: seq<Atom>)
    ensures ApplyAtoms(ps, p, atoms) == ApplyLabels(ps, p, LabelsOf(atoms))
    decreases |atoms|
  {
    hide ApplyLabels;
    if atoms == [] {
      NoLabels(ps, p);
    } else {
      AtomsAreLabels(ps, ApplyLabels(ps, p, atoms[0].labels), atoms[1..]);
      ApplyLabelsConcat(ps, p, atoms[0].labels, LabelsOf(atoms[1..]));
    }
  }

  lemma NoLabels(ps: Parsers, p: Policy)
    ensures ApplyLabels(ps, p, []) == p
  {
  }

  lemma LastReadingSnoc<T>(read: string -> Option<T>, labels: seq<string>, tag: string)
    ensures LastReading(read, labels + [tag]) == OrElse(read(tag), LastReading(read, labels))
  {
    assert (labels + [tag])[..|labels|] == labels;
  }

  lemma ValuesAfterSnoc(prefix: string, labels: seq<string>, tag: string)
    ensures var v := Strip(tag, prefix);
            ValuesAfter(prefix, labels + [tag])
            == if v.Some? && v.value != [] then ValuesAfter(prefix, labels) + [v.value] else ValuesAfter(prefix, labels)
  {
    hide Strip;
    assert (labels + [tag])[..|labels|] == labels;
  }

  lemma OneReading(ps: Parsers, labels: seq<string>, tag: string)
    ensures Readings(ps, labels + [tag]) == ApplyLabel(ps, Readings(ps, labels), tag)
  {
    hide Strip, ParseDays, LastReading, ValuesAfter;
    LastReadingSnoc(DaysReader(RETENTION), labels, tag);
    LastReadingSnoc(DaysReader(RETENTION_MIN), labels, tag);
    LastReadingSnoc(FractionReader(ps, MIN_IMPORTANCE), labels, tag);
    ValuesAfterSnoc(ALLOW, labels, tag);
    ValuesAfterSnoc(DENY, labels, tag);
  }

  lemma {:induction false} LabelsAreReadings(ps: Parsers, labels: seq<string>)
    ensures ApplyLabels(ps, DEFAULT_POLICY, labels) == Readings(ps, labels)
  {
    hide ApplyLabel, Readings;
    if labels == [] {
      NothingRead(ps);
    } else {
      var n := |labels| - 1;
      assert labels == labels[..n] + [labels[n]];
      LabelsAreReadings(ps, labels[..n]);
      ApplyLabelsSnoc(ps, DEFAULT_POLICY, labels[..n], labels[n]);
      OneReading(ps, labels[..n], labels[n]);
    }
  }

  lemma NothingRead(ps: Parsers)
    ensures Readings(ps, []) == DEFAULT_POLICY
  {
  }

  /**
   A world's policy, field by field: the last readable label wins, allow and deny lists collect every
   nonempty value in order, and the retention is never below the last readable floor.
   */
  lemma PolicyMeaning(ps: Parsers, logs: Logs, w: WorldKey)
    ensures var labels := LabelsOf(PolicyAtoms(logs, w));
            var p := ParsePolicy(ps, logs, w);
            var days := LastReading(DaysReader(RETENTION), labels);
            var floor := LastReading(DaysReader(RETENTION_MIN), labels);
            && p.retentionDays == Some(Max(if days.Some? then days.value else 365,
                                           if floor.Some? then floor.value else 0))
            && p.minImportance == LastReading(FractionReader(ps, MIN_IMPORTANCE), labels)
            && p.allow == ValuesAfter(ALLOW, labels) && p.deny == ValuesAfter(DENY, labels)
  {
    hide ApplyAtoms, ApplyLabels, LastReading, ValuesAfter;
    AtomsAreLabels(ps, DEFAULT_POLICY, PolicyAtoms(logs, w));
    LabelsAreReadings(ps, LabelsOf(PolicyAtoms(logs, w)));
  }

  function Max(x: nat, y: nat): nat { if x < y then y else x }
}
