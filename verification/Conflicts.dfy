/** The conflict index built from atom links, and the ranking that reads it. */
module Conflicts {
  import opened Prelude
  import opened Atoms
  import opened Sorting

  datatype Conflicts = Conflicts(
    supersedes: map<AtomId, AtomId>,
    contradicts: map<AtomId, seq<AtomId>>,
    confirms: map<AtomId, seq<AtomId>>)

  const NO_CONFLICTS := Conflicts(map[], map[], map[])

  function ListAt(m: map<AtomId, seq<AtomId>>, id: AtomId): seq<AtomId> {
    if id in m then m[id] else []
  }

  function RegisterLink(c: Conflicts, source: AtomId, link: Link): Conflicts {
    match link.kind
    case Supersedes => c.(supersedes := c.supersedes[link.target := source])
    case Contradicts => c.(contradicts := c.contradicts[link.target := ListAt(c.contradicts, link.target) + [source]])
    case Confirms => c.(confirms := c.confirms[link.target := ListAt(c.confirms, link.target) + [source]])
    case References => c
  }

  function RegisterLinks(c: Conflicts, source: AtomId, links: seq<Link>): Conflicts {
    if links == [] then c
    else RegisterLink(RegisterLinks(c, source, links[..|links| - 1]), source, links[|links| - 1])
  }

  function Register(c: Conflicts, a: Atom): Conflicts {
    RegisterLinks(c, a.id, a.links)
  }

  function RegisterAll(h: seq<Atom>): Conflicts {
    if h == [] then NO_CONFLICTS else Register(RegisterAll(h[..|h| - 1]), h[|h| - 1])
  }

  function RankScore(c: Conflicts, a: Atom): real {
    a.importance
    - (if a.id in c.supersedes then 1.0 else 0.0)
    - 0.3 * (|ListAt(c.contradicts, a.id)| as real)
    + 0.2 * (|ListAt(c.confirms, a.id)| as real)
  }

  class ConflictIndex {
    var supersedes: map<AtomId, AtomId>
    var contradicts: map<AtomId, seq<AtomId>>
    var confirms: map<AtomId, seq<AtomId>>

    function State(): Conflicts
      reads this
    {
      Conflicts(supersedes, contradicts, confirms)
    }

    constructor ()
      ensures State() == NO_CONFLICTS
    {
      supersedes, contradicts, confirms := map[], map[], map[];
    }

    method Register(a: Atom)
      modifies this
      ensures State() == RegisterLinks(old(State()), a.id, a.links)
    {
      for i := 0 to |a.links|
        invariant State() == RegisterLinks(old(State()), a.id, a.links[..i])
      {
        var link := a.links[i];
        assert a.links[..i + 1][..i] == a.links[..i];
        match link.kind {
          case Supersedes => supersedes := supersedes[link.target := a.id];
          case Contradicts =>
            contradicts := contradicts[link.target := ListAt(contradicts, link.target) + [a.id]];
          case Confirms => confirms := confirms[link.target := ListAt(confirms, link.target) + [a.id]];
          case References =>
        }
      }
      assert a.links[..|a.links|] == a.links;
    }

    method Score(a: Atom) returns (score: real)
      ensures score == RankScore(State(), a)
    {
      score := a.importance;
      if a.id in supersedes { score := score - 1.0; }
      var contradictions := |ListAt(contradicts, a.id)|;
      if contradictions > 0 { score := score - 0.3 * (contradictions as real); }
      var confirmations := |ListAt(confirms, a.id)|;
      if confirmations > 0 { score := score + 0.2 * (confirmations as real); }
    }
  }

  // ---------------------------------------------------------------- the score is about links, not order

  /** All links of the registered atoms, as a bag. */
  function LinkBag(h: seq<Atom>): multiset<Link> {
    if h == [] then multiset{} else LinkBag(h[..|h| - 1]) + multiset(h[|h| - 1].links)
  }

  /** What `c` records about `id` is exactly the links to it in the bag. */
  ghost predicate ReflectsId(c: Conflicts, bag: multiset<Link>, id: AtomId) {
    && (id in c.supersedes <==> bag[Link(id, Supersedes)] > 0)
    && |ListAt(c.contradicts, id)| == bag[Link(id, Contradicts)]
    && |ListAt(c.confirms, id)| == bag[Link(id, Confirms)]
  }

  ghost predicate Reflects(c: Conflicts, bag: multiset<Link>) {
    forall id: AtomId :: ReflectsId(c, bag, id)
  }

  lemma {:induction false} LinksReflected(c: Conflicts, bag: multiset<Link>, source: AtomId, links: seq<Link>)
    requires Reflects(c, bag)
    ensures Reflects(RegisterLinks(c, source, links), bag + multiset(links))
  {
    if links == [] {
      assert bag + multiset(links) == bag;
    } else {
      var n := |links| - 1;
      var front := links[..n];
      LinksReflected(c, bag, source, front);
      assert links == front + [links[n]];
      LinkReflected(RegisterLinks(c, source, front), bag + multiset(front), source, links[n]);
      assert bag + multiset(links) == bag + multiset(front) + multiset{links[n]};
    }
  }

  lemma LinkReflected(c: Conflicts, bag: multiset<Link>, source: AtomId, link: Link)
    requires Reflects(c, bag)
    ensures Reflects(RegisterLink(c, source, link), bag + multiset{link})
  {
    forall id: AtomId
      ensures ReflectsId(RegisterLink(c, source, link), bag + multiset{link}, id)
    {
      assert ReflectsId(c, bag, id);
      match link.kind {
        case Supersedes =>
        case Contradicts =>
        case Confirms =>
        case References =>
      }
    }
  }

  lemma {:induction false} RunReflected(h: seq<Atom>)
    ensures Reflects(RegisterAll(h), LinkBag(h))
  {
    if h != [] {
      var n := |h| - 1;
      RunReflected(h[..n]);
      LinksReflected(RegisterAll(h[..n]), LinkBag(h[..n]), h[n].id, h[n].links);
    }
  }

  /**
   The score of an atom in terms of the links alone: its importance, less one if anything supersedes
   it, less 0.3 for each contradiction, plus 0.2 for each confirmation.
   */
  lemma ScoreOfLinks(h: seq<Atom>, a: Atom)
    ensures RankScore(RegisterAll(h), a)
         == a.importance - (if LinkBag(h)[Link(a.id, Supersedes)] > 0 then 1.0 else 0.0)
            - 0.3 * (LinkBag(h)[Link(a.id, Contradicts)] as real) + 0.2 * (LinkBag(h)[Link(a.id, Confirms)] as real)
  {
    RunReflected(h);
    assert ReflectsId(RegisterAll(h), LinkBag(h), a.id);
  }

  /** Registration order does not matter: equal bags of links give equal scores. */
  lemma OrderDoesNotMatter(h: seq<Atom>, h': seq<Atom>, a: Atom)
    requires LinkBag(h) == LinkBag(h')
    ensures RankScore(RegisterAll(h), a) == RankScore(RegisterAll(h'), a)
  {
    ScoreOfLinks(h, a);
    ScoreOfLinks(h', a);
  }

  // ---------------------------------------------------------------- the answer order

  /** Score, time, importance and trust of an atom: what answers are ordered by, largest first. */
  datatype Rank = Rank(score: real, time: int, importance: real, trust: real)

  datatype Ranking = Ranking(parse: string -> Option<int>, trust: string -> real) {
    function Of(c: Conflicts, a: Atom): Rank {
      Rank(RankScore(c, a), if parse(a.timestamp).Some? then parse(a.timestamp).value else 0,
           a.importance, trust(a.worker))
    }
  }

  predicate NotBelow(x: Rank, y: Rank) {
    x.score > y.score || (x.score == y.score &&
    (x.time > y.time || (x.time == y.time &&
    (x.importance > y.importance || (x.importance == y.importance && x.trust >= y.trust)))))
  }

  function AnswerOrder(k: Ranking, c: Conflicts): (Atom, Atom) -> bool {
    (a: Atom, b: Atom) => NotBelow(k.Of(c, a), k.Of(c, b))
  }

  lemma AnswerOrderIsTotal(k: Ranking, c: Conflicts)
    ensures TotalPreorder(AnswerOrder(k, c))
  {
    hide RankScore;
  }

  /** Drop every atom whose id an earlier one already carries. */
  function Deduplicated(atoms: seq<Atom>, seen: set<AtomId>): (r: seq<Atom>)
    ensures forall a :: a in r ==> a in atoms && a.id !in seen
  {
    if atoms == [] then []
    else if atoms[0].id in seen then Deduplicated(atoms[1..], seen)
    else [atoms[0]] + Deduplicated(atoms[1..], seen + {atoms[0].id})
  }

  lemma {:induction false} DeduplicatedIds(atoms: seq<Atom>, seen: set<AtomId>)
    ensures UniqueIds(Deduplicated(atoms, seen))
  {
    if atoms != [] {
      var a := atoms[0];
      if a.id in seen {
        DeduplicatedIds(atoms[1..], seen);
      } else {
        var rest := Deduplicated(atoms[1..], seen + {a.id});
        DeduplicatedIds(atoms[1..], seen + {a.id});
        assert forall j :: 0 <= j < |rest| ==> rest[j] in rest;
      }
    }
  }

  ghost predicate CarriesId(atoms: seq<Atom>, id: AtomId) {
    exists a :: a in atoms && a.id == id
  }

  lemma {:induction false} DeduplicatedCovers(atoms: seq<Atom>, seen: set<AtomId>, id: AtomId)
    requires CarriesId(atoms, id) && id !in seen
    ensures CarriesId(Deduplicated(atoms, seen), id)
  {
    var a := atoms[0];
    assert atoms == [a] + atoms[1..];
    if a.id in seen {
      DeduplicatedCovers(atoms[1..], seen, id);
    } else {
      var rest := Deduplicated(atoms[1..], seen + {a.id});
      assert a in [a] + rest;
      if a.id != id {
        DeduplicatedCovers(atoms[1..], seen + {a.id}, id);
        var b :| b in rest && b.id == id;
        assert b in [a] + rest;
      }
    }
  }

  /** The answer list: candidates without repeated ids, in answer order. */
  function Ranked(k: Ranking, c: Conflicts, candidates: seq<Atom>): seq<Atom> {
    SortBy(AnswerOrder(k, c), Deduplicated(candidates, {}))
  }

  lemma PermutedDistinct(x: seq<Atom>, y: seq<Atom>)
    requires multiset(x) == multiset(y) && UniqueIds(y)
    ensures UniqueIds(x)
  {
    forall i, j | 0 <= i < j < |x|
      ensures x[i].id != x[j].id
    {
      SameElements(x, y);
      assert x[i] in y && x[j] in y;
      var p :| 0 <= p < |y| && y[p] == x[i];
      var q :| 0 <= q < |y| && y[q] == x[j];
      if x[i] == x[j] { TwiceInside(x, i, j); }
      OnceInside(y, p);
      assert p != q;
    }
  }

  lemma TwiceInside(x: seq<Atom>, i: nat, j: nat)
    requires i < j < |x| && x[i] == x[j]
    ensures multiset(x)[x[i]] >= 2
  {
    assert x == x[..i] + [x[i]] + x[i + 1..j] + [x[j]] + x[j + 1..];
  }

  lemma OnceInside(y: seq<Atom>, p: nat)
    requires p < |y| && UniqueIds(y)
    ensures multiset(y)[y[p]] == 1
  {
    assert y == y[..p] + [y[p]] + y[p + 1..];
    assert y[p] !in y[..p] && y[p] !in y[p + 1..];
  }

  /** Answers are pairwise distinct, in answer order, and cover exactly the candidate ids. */
  lemma RankedMeaning(k: Ranking, c: Conflicts, candidates: seq<Atom>)
    ensures var r := Ranked(k, c, candidates);
            && UniqueIds(r) && SortedBy(AnswerOrder(k, c), r)
            && (forall a :: a in r ==> a in candidates)
            && (forall a :: a in candidates ==> CarriesId(r, a.id))
  {
    var d := Deduplicated(candidates, {});
    var r := Ranked(k, c, candidates);
    DeduplicatedIds(candidates, {});
    PermutedDistinct(r, d);
    SameElements(r, d);
    AnswerOrderIsTotal(k, c);
    SortIsSorted(AnswerOrder(k, c), d);
    forall a | a in candidates
      ensures CarriesId(r, a.id)
    {
      DeduplicatedCovers(candidates, {}, a.id);
      var b :| b in d && b.id == a.id;
      assert b in r;
    }
  }
}
