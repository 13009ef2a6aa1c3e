/** The immutable data model: atoms, links, and the filter a storage scan applies. */
module Atoms {
  import opened Prelude
  import opened Text

  type AtomId = string
  type WorldKey = string

  datatype AtomKind = Observation | Reflection | Plan | Action | Message

  datatype LinkKind = Supersedes | References | Confirms | Contradicts

  datatype Link = Link(target: AtomId, kind: LinkKind)

  datatype Atom = Atom(
    id: AtomId,
    world: WorldKey,
    worker: string,
    kind: AtomKind,
    timestamp: string,
    importance: real,
    payload: string,
    vector: Option<seq<real>>,
    flags: seq<string>,
    labels: seq<string>,
    links: seq<Link>)

  datatype AtomFilter = AtomFilter(
    world: Option<WorldKey>,
    kinds: seq<AtomKind>,
    labels: seq<string>,
    flags: seq<string>,
    since: Option<string>,
    until: Option<string>,
    limit: Option<nat>)

  const NO_FILTER := AtomFilter(None, [], [], [], None, None, None)

  predicate AllIn<T(==)>(wanted: seq<T>, present: seq<T>) {
    forall i :: 0 <= i < |wanted| ==> wanted[i] in present
  }

  predicate AnyIn<T(==)>(wanted: seq<T>, present: seq<T>) {
    exists i :: 0 <= i < |wanted| && wanted[i] in present
  }

  lemma AllInMeaning<T>(wanted: seq<T>, present: seq<T>)
    ensures AllIn(wanted, present) <==> forall x :: x in wanted ==> x in present
  {
  }

  lemma AnyInMeaning<T>(wanted: seq<T>, present: seq<T>)
    ensures AnyIn(wanted, present) <==> exists x :: x in wanted && x in present
  {
    if x :| x in wanted && x in present {
      var i :| 0 <= i < |wanted| && wanted[i] == x;
    }
  }

  /** The storage test. Flags are requirements here; timestamps compare as strings. */
  predicate MatchesFilter(a: Atom, f: AtomFilter) {
    && (f.kinds != [] ==> a.kind in f.kinds)
    && AllIn(f.labels, a.labels)
    && AllIn(f.flags, a.flags)
    && (f.since.Some? ==> !LexLess(a.timestamp, f.since.value))
    && (f.until.Some? ==> !LexLess(f.until.value, a.timestamp))
  }

  /** Cut at the limit; a limit of zero still lets one atom through. */
  function Limited(limit: Option<nat>, atoms: seq<Atom>): seq<Atom> {
    if limit.None? then atoms
    else
      var n := if limit.value == 0 then 1 else limit.value;
      if |atoms| <= n then atoms else atoms[..n]
  }

  /** What a scan of world `w` returns, in terms of its log. */
  function FilteredLog(log: seq<Atom>, w: WorldKey, f: AtomFilter): seq<Atom> {
    if f.world.Some? && f.world.value != w then []
    else Limited(f.limit, Keep((a: Atom) => MatchesFilter(a, f), log))
  }

  function Ids(atoms: seq<Atom>): (r: seq<AtomId>)
    ensures |r| == |atoms| && forall i :: 0 <= i < |r| ==> r[i] == atoms[i].id
  {
    Map((a: Atom) => a.id, atoms)
  }

  /** An id never stands for two different atoms; the same atom may occur again. */
  ghost predicate OneAtomPerId(atoms: seq<Atom>) {
    forall a, b :: a in atoms && b in atoms && a.id == b.id ==> a == b
  }

  ghost predicate UniqueIds(atoms: seq<Atom>) {
    forall i, j :: 0 <= i < j < |atoms| ==> atoms[i].id != atoms[j].id
  }
}
