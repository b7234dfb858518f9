/** The link counts of a compiled corpus: how resolved links are tallied on the
    notes, what the totals conserve, and what the orphan report really says. */
module LinkGraph {
  import opened Rows
  import opened Lists

  datatype Resolution = Resolved(target: Path) | Ambiguous(candidates: seq<Path>) | Unresolved

  datatype Link = Link(source: Path, resolution: Resolution)

  datatype Tally = OutgoingEdges | IncomingEdges | UnresolvedLinks | AmbiguousLinks | SelfLinks

  /** The counters of one note; the note counts are the sizes of the two sets. */
  datatype Counts = Counts(outgoingEdges: nat, incomingEdges: nat, unresolved: nat, ambiguous: nat, selfLinks: nat,
                           incoming: set<Path>, outgoing: set<Path>)

  const NO_COUNTS := Counts(0, 0, 0, 0, 0, {}, {})

  // ----- what is counted -----

  predicate ToNote(l: Link, notes: set<Path>) { l.resolution.Resolved? && l.resolution.target in notes }

  /** The note, if any, on which a link adds to a tally. */
  function CountedOn(l: Link, notes: set<Path>, t: Tally): Option<Path> {
    match t
    case OutgoingEdges => Some(l.source)
    case IncomingEdges => if ToNote(l, notes) then Some(l.resolution.target) else None
    case UnresolvedLinks => if l.resolution.Unresolved? then Some(l.source) else None
    case AmbiguousLinks => if l.resolution.Ambiguous? then Some(l.source) else None
    case SelfLinks => if ToNote(l, notes) && l.resolution.target == l.source then Some(l.source) else None
  }

  function Count(links: seq<Link>, notes: set<Path>, t: Tally, n: Path): nat {
    if links == [] then 0
    else Count(links[..|links| - 1], notes, t, n) + if CountedOn(links[|links| - 1], notes, t) == Some(n) then 1 else 0
  }

  /** Distinct notes a note links to, itself excluded. */
  function Targets(links: seq<Link>, notes: set<Path>, n: Path): set<Path> {
    set i | 0 <= i < |links| && ToNote(links[i], notes) && links[i].source == n && links[i].resolution.target != n :: links[i].resolution.target
  }

  /** Distinct notes that link to a note, itself excluded. */
  function Sources(links: seq<Link>, notes: set<Path>, n: Path): set<Path> {
    set i | 0 <= i < |links| && ToNote(links[i], notes) && links[i].resolution.target == n && links[i].source != n :: links[i].source
  }

  /** The linking note's neighbour goes on its incoming side and the linked
      note's on its outgoing side. */
  function CountsOf(links: seq<Link>, notes: set<Path>, n: Path): Counts {
    Counts(Count(links, notes, OutgoingEdges, n), Count(links, notes, IncomingEdges, n),
           Count(links, notes, UnresolvedLinks, n), Count(links, notes, AmbiguousLinks, n),
           Count(links, notes, SelfLinks, n),
           Targets(links, notes, n), Sources(links, notes, n))
  }

  // ----- the pass over the links -----

  lemma CountStep(links: seq<Link>, notes: set<Path>, k: nat, n: Path)
    requires k < |links|
    ensures forall t :: Count(links[..k + 1], notes, t, n) ==
                        Count(links[..k], notes, t, n) + if CountedOn(links[k], notes, t) == Some(n) then 1 else 0
    ensures var l := links[k];
            && Targets(links[..k + 1], notes, n) == Targets(links[..k], notes, n) +
                 (if ToNote(l, notes) && l.source == n && l.resolution.target != n then {l.resolution.target} else {})
            && Sources(links[..k + 1], notes, n) == Sources(links[..k], notes, n) +
                 (if ToNote(l, notes) && l.resolution.target == n && l.source != n then {l.source} else {})
  {
    var before, after := links[..k], links[..k + 1];
    assert after[..k] == before && after[k] == links[k];
    assert after == before + [links[k]];
  }

  function Bump(c: nat, hit: bool): nat { if hit then c + 1 else c }

  /** One link's contribution, tally by tally. */
  function Bumped(c: Counts, l: Link, notes: set<Path>, n: Path): Counts {
    Counts(Bump(c.outgoingEdges, CountedOn(l, notes, OutgoingEdges) == Some(n)),
           Bump(c.incomingEdges, CountedOn(l, notes, IncomingEdges) == Some(n)),
           Bump(c.unresolved, CountedOn(l, notes, UnresolvedLinks) == Some(n)),
           Bump(c.ambiguous, CountedOn(l, notes, AmbiguousLinks) == Some(n)),
           Bump(c.selfLinks, CountedOn(l, notes, SelfLinks) == Some(n)),
           c.incoming + (if ToNote(l, notes) && l.source == n && l.resolution.target != n then {l.resolution.target} else {}),
           c.outgoing + (if ToNote(l, notes) && l.resolution.target == n && l.source != n then {l.source} else {}))
  }

  /** A link leaves every note but its source and its target alone. */
  lemma BumpedElsewhere(c: Counts, l: Link, notes: set<Path>, n: Path)
    requires n != l.source && !(l.resolution.Resolved? && l.resolution.target == n)
    ensures Bumped(c, l, notes, n) == c
  {
  }

  lemma BumpedSource(c: Counts, l: Link, notes: set<Path>)
    ensures var sent := c.(outgoingEdges := c.outgoingEdges + 1);
            Bumped(c, l, notes, l.source) ==
            match l.resolution
            case Unresolved => sent.(unresolved := c.unresolved + 1)
            case Ambiguous(_) => sent.(ambiguous := c.ambiguous + 1)
            case Resolved(target) =>
              if target !in notes then sent
              else if target == l.source then sent.(incomingEdges := c.incomingEdges + 1, selfLinks := c.selfLinks + 1)
              else sent.(incoming := c.incoming + {target})
  {
  }

  lemma BumpedTarget(c: Counts, l: Link, notes: set<Path>)
    requires ToNote(l, notes) && l.resolution.target != l.source
    ensures Bumped(c, l, notes, l.resolution.target) ==
            c.(incomingEdges := c.incomingEdges + 1, outgoing := c.outgoing + {l.source})
  {
  }

  /** The counts of one more link are the counts so far, bumped. */
  lemma CountsStep(links: seq<Link>, notes: set<Path>, k: nat, n: Path)
    requires k < |links|
    ensures CountsOf(links[..k + 1], notes, n) == Bumped(CountsOf(links[..k], notes, n), links[k], notes, n)
  {
    CountStep(links, notes, k, n);
  }

  class Graph {
    var notes: map<Path, Counts>

    constructor (names: set<Path>)
      ensures notes == map n | n in names :: NO_COUNTS
    {
      notes := map n | n in names :: NO_COUNTS;
    }

    method AddUniqueNeighbor(n: Path, incoming: bool, neighbor: Path)
      requires n in notes
      modifies this
      ensures notes == old(notes)[n := if incoming then old(notes)[n].(incoming := old(notes)[n].incoming + {neighbor})
                                       else old(notes)[n].(outgoing := old(notes)[n].outgoing + {neighbor})]
    {
      if incoming {
        notes := notes[n := notes[n].(incoming := notes[n].incoming + {neighbor})];
      } else {
        notes := notes[n := notes[n].(outgoing := notes[n].outgoing + {neighbor})];
      }
    }

    /** The effect of one link on the note that carries it and on its target. */
    method CountLink(l: Link)
      requires l.source in notes
      modifies this
      ensures notes.Keys == old(notes).Keys
      ensures forall n | n in notes :: notes[n] == Bumped(old(notes)[n], l, old(notes).Keys, n)
    {
      var source := l.source;
      ghost var was := notes;
      BumpedSource(was[source], l, was.Keys);
      forall n | n in was && n != source && !(l.resolution.Resolved? && l.resolution.target == n)
        ensures Bumped(was[n], l, was.Keys, n) == was[n]
      {
        BumpedElsewhere(was[n], l, was.Keys, n);
      }
      notes := notes[source := notes[source].(outgoingEdges := notes[source].outgoingEdges + 1)];
      match l.resolution
      case Unresolved => notes := notes[source := notes[source].(unresolved := notes[source].unresolved + 1)];
      case Ambiguous(_) => notes := notes[source := notes[source].(ambiguous := notes[source].ambiguous + 1)];
      case Resolved(target) =>
        if target in notes {
          notes := notes[target := notes[target].(incomingEdges := notes[target].incomingEdges + 1)];
          if target == source {
            notes := notes[source := notes[source].(selfLinks := notes[source].selfLinks + 1)];
          } else {
            BumpedTarget(was[target], l, was.Keys);
            AddUniqueNeighbor(source, true, target);
            AddUniqueNeighbor(target, false, source);
          }
        }
    }

    /** Afterwards every note carries exactly its counts. */
    method CountLinks(links: seq<Link>)
      requires forall l | l in links :: l.source in notes
      requires forall n | n in notes :: notes[n] == NO_COUNTS
      modifies this
      ensures notes.Keys == old(notes).Keys
      ensures forall n | n in notes :: notes[n] == CountsOf(links, notes.Keys, n)
    {
      for k := 0 to |links|
        invariant notes.Keys == old(notes).Keys
        invariant forall n | n in notes :: notes[n] == CountsOf(links[..k], notes.Keys, n)
      {
        ghost var before := notes;
        assert links[k] in links;
        CountLink(links[k]);
        forall n | n in notes
          ensures notes[n] == CountsOf(links[..k + 1], notes.Keys, n)
        {
          CountsStep(links, notes.Keys, k, n);
          assert before[n] == CountsOf(links[..k], before.Keys, n);
        }
      }
      assert links[..|links|] == links;
    }
  }

  // ----- conservation -----

  function Total(names: seq<Path>, links: seq<Link>, notes: set<Path>, t: Tally): nat {
    if names == [] then 0
    else Total(names[..|names| - 1], links, notes, t) + Count(links, notes, t, names[|names| - 1])
  }

  /** The links that add to a tally somewhere. */
  function Counting(links: seq<Link>, notes: set<Path>, t: Tally): seq<Link> {
    if links == [] then []
    else Counting(links[..|links| - 1], notes, t) + if CountedOn(links[|links| - 1], notes, t).Some? then [links[|links| - 1]] else []
  }

  lemma {:induction false} TotalStep(names: seq<Path>, links: seq<Link>, notes: set<Path>, t: Tally)
    requires links != [] && Distinct(names)
    ensures var at := CountedOn(links[|links| - 1], notes, t);
            Total(names, links, notes, t) == Total(names, links[..|links| - 1], notes, t)
                                             + if at.Some? && at.value in names then 1 else 0
  {
    if names != [] {
      var init, last := names[..|names| - 1], names[|names| - 1];
      assert names == init + [last];
      TotalStep(init, links, notes, t);
      assert last !in init;
    }
  }

  lemma {:induction false} TotalIsCounting(names: seq<Path>, links: seq<Link>, notes: set<Path>, t: Tally)
    requires Distinct(names) && (forall n :: n in names <==> n in notes) && forall l | l in links :: l.source in notes
    ensures Total(names, links, notes, t) == |Counting(links, notes, t)|
  {
    if links == [] {
      EmptyTotal(names, notes, t);
    } else {
      var init, last := links[..|links| - 1], links[|links| - 1];
      assert links == init + [last];
      TotalStep(names, links, notes, t);
      TotalIsCounting(names, init, notes, t);
    }
  }

  lemma {:induction false} EmptyTotal(names: seq<Path>, notes: set<Path>, t: Tally)
    ensures Total(names, [], notes, t) == 0
  {
    if names != [] {
      EmptyTotal(names[..|names| - 1], notes, t);
    }
  }

  function Broken(links: seq<Link>): seq<Link> {
    if links == [] then []
    else Broken(links[..|links| - 1]) + if links[|links| - 1].resolution.Resolved? then [] else [links[|links| - 1]]
  }

  lemma {:induction false} CountingSizes(links: seq<Link>, notes: set<Path>)
    ensures Counting(links, notes, OutgoingEdges) == links
    ensures |Counting(links, notes, UnresolvedLinks)| + |Counting(links, notes, AmbiguousLinks)| == |Broken(links)|
    ensures |Counting(links, notes, IncomingEdges)| + |Broken(links)| <= |links|
    ensures |Counting(links, notes, SelfLinks)| <= |Counting(links, notes, IncomingEdges)|
  {
    if links != [] {
      assert links == links[..|links| - 1] + [links[|links| - 1]];
      CountingSizes(links[..|links| - 1], notes);
    }
  }

  /** Edges are conserved: the outgoing counts add up to the links, the unresolved
      and ambiguous ones to the broken records, and the incoming ones to the links
      that reach a note. */
  lemma EdgesAreConserved(names: seq<Path>, links: seq<Link>, notes: set<Path>)
    requires Distinct(names) && (forall n :: n in names <==> n in notes) && forall l | l in links :: l.source in notes
    ensures Total(names, links, notes, OutgoingEdges) == |links|
    ensures Total(names, links, notes, UnresolvedLinks) + Total(names, links, notes, AmbiguousLinks) == |Broken(links)|
    ensures Total(names, links, notes, IncomingEdges) == |Counting(links, notes, IncomingEdges)|
    ensures Total(names, links, notes, SelfLinks) <= Total(names, links, notes, IncomingEdges) <= |links| - |Broken(links)|
  {
    CountingSizes(links, notes);
    TotalIsCounting(names, links, notes, OutgoingEdges);
    TotalIsCounting(names, links, notes, UnresolvedLinks);
    TotalIsCounting(names, links, notes, AmbiguousLinks);
    TotalIsCounting(names, links, notes, IncomingEdges);
    TotalIsCounting(names, links, notes, SelfLinks);
  }

  /** The link with this index adds to the tally on note n. */
  predicate Adds(l: Link, notes: set<Path>, t: Tally, n: Path) {
    match t
    case OutgoingEdges => l.source == n
    case IncomingEdges => n in notes && l.resolution == Resolved(n)
    case UnresolvedLinks => l.source == n && l.resolution.Unresolved?
    case AmbiguousLinks => l.source == n && l.resolution.Ambiguous?
    case SelfLinks => l.source == n && n in notes && l.resolution == Resolved(n)
  }

  function Adding(links: seq<Link>, notes: set<Path>, t: Tally, n: Path): set<int> {
    set i | 0 <= i < |links| && Adds(links[i], notes, t, n)
  }

  /** Each counter of a note is the number of links that it is about: those the
      note carries, those that reach it, its unresolved and its ambiguous ones, and
      those from the note to itself. */
  lemma {:induction false} CountIsNumberOfLinks(links: seq<Link>, notes: set<Path>, t: Tally, n: Path)
    ensures Count(links, notes, t, n) == |Adding(links, notes, t, n)|
  {
    if links == [] {
      assert Adding(links, notes, t, n) == {};
    } else {
      CountIsNumberOfLinks(links[..|links| - 1], notes, t, n);
      AddingStep(links, notes, t, n);
      AddsIsCounted(links[|links| - 1], notes, t, n);
    }
  }

  lemma AddsIsCounted(l: Link, notes: set<Path>, t: Tally, n: Path)
    ensures CountedOn(l, notes, t) == Some(n) <==> Adds(l, notes, t, n)
  {
  }

  lemma AddingStep(links: seq<Link>, notes: set<Path>, t: Tally, n: Path)
    requires links != []
    ensures var k := |links| - 1;
            |Adding(links, notes, t, n)| == |Adding(links[..k], notes, t, n)| + if Adds(links[k], notes, t, n) then 1 else 0
  {
    var k := |links| - 1;
    var init := links[..k];
    AddingMembers(links, init, notes, t, n);
    OneMoreMember(Adding(init, notes, t, n), Adding(links, notes, t, n), k, Adds(links[k], notes, t, n));
  }

  lemma AddingMembers(links: seq<Link>, init: seq<Link>, notes: set<Path>, t: Tally, n: Path)
    requires links != [] && init == links[..|links| - 1]
    ensures forall i :: i in Adding(links, notes, t, n) <==>
              i in Adding(init, notes, t, n) || (i == |init| && Adds(links[i], notes, t, n))
    ensures |init| !in Adding(init, notes, t, n)
  {
    assert forall i | 0 <= i < |init| :: init[i] == links[i];
  }

  lemma OneMoreMember<T>(a: set<T>, b: set<T>, k: T, more: bool)
    requires k !in a && forall i :: i in b <==> i in a || (i == k && more)
    ensures |b| == |a| + if more then 1 else 0
  {
    if more {
      assert b == a + {k};
    } else {
      assert b == a;
    }
  }

  // ----- note pairs -----

  /** The distinct pairs of different notes joined by a resolved link. */
  function Pairs(links: seq<Link>, notes: set<Path>): set<(Path, Path)> {
    set i | 0 <= i < |links| && ToNote(links[i], notes) && links[i].source != links[i].resolution.target ::
      (links[i].source, links[i].resolution.target)
  }

  function IncomingNotes(names: seq<Path>, links: seq<Link>, notes: set<Path>): nat {
    if names == [] then 0
    else IncomingNotes(names[..|names| - 1], links, notes) + |CountsOf(links, notes, names[|names| - 1]).incoming|
  }

  function OutgoingNotes(names: seq<Path>, links: seq<Link>, notes: set<Path>): nat {
    if names == [] then 0
    else OutgoingNotes(names[..|names| - 1], links, notes) + |CountsOf(links, notes, names[|names| - 1]).outgoing|
  }

  function From(pairs: set<(Path, Path)>, sources: set<Path>): set<(Path, Path)> { set p | p in pairs && p.0 in sources }

  function Into(pairs: set<(Path, Path)>, targets: set<Path>): set<(Path, Path)> { set p | p in pairs && p.1 in targets }

  lemma {:induction false} FirstFixed(pairs: set<(Path, Path)>, n: Path, seconds: set<Path>)
    requires forall p :: p in pairs <==> p.0 == n && p.1 in seconds
    ensures |pairs| == |seconds|
  {
    if seconds == {} {
      assert pairs == {};
    } else {
      var x :| x in seconds;
      assert (n, x) in pairs;
      FirstFixed(pairs - {(n, x)}, n, seconds - {x});
    }
  }

  lemma {:induction false} SecondFixed(pairs: set<(Path, Path)>, n: Path, firsts: set<Path>)
    requires forall p :: p in pairs <==> p.1 == n && p.0 in firsts
    ensures |pairs| == |firsts|
  {
    if firsts == {} {
      assert pairs == {};
    } else {
      var x :| x in firsts;
      assert (x, n) in pairs;
      SecondFixed(pairs - {(x, n)}, n, firsts - {x});
    }
  }

  lemma FromSplit(pairs: set<(Path, Path)>, init: set<Path>, last: Path)
    requires last !in init
    ensures |From(pairs, init + {last})| == |From(pairs, init)| + |From(pairs, {last})|
    ensures |Into(pairs, init + {last})| == |Into(pairs, init)| + |Into(pairs, {last})|
  {
    assert From(pairs, init + {last}) == From(pairs, init) + From(pairs, {last});
    assert From(pairs, init) !! From(pairs, {last});
    assert Into(pairs, init + {last}) == Into(pairs, init) + Into(pairs, {last});
    assert Into(pairs, init) !! Into(pairs, {last});
  }

  lemma PairsOfNote(links: seq<Link>, notes: set<Path>, n: Path)
    ensures |From(Pairs(links, notes), {n})| == |Targets(links, notes, n)|
    ensures |Into(Pairs(links, notes), {n})| == |Sources(links, notes, n)|
  {
    var pairs := Pairs(links, notes);
    assert forall p :: p in From(pairs, {n}) <==> p.0 == n && p.1 in Targets(links, notes, n);
    FirstFixed(From(pairs, {n}), n, Targets(links, notes, n));
    assert forall p :: p in Into(pairs, {n}) <==> p.1 == n && p.0 in Sources(links, notes, n);
    SecondFixed(Into(pairs, {n}), n, Sources(links, notes, n));
  }

  /** One more name adds its own pairs. */
  lemma NoteStep(names: seq<Path>, links: seq<Link>, notes: set<Path>, k: nat)
    requires Distinct(names) && k < |names|
    ensures var pairs := Pairs(links, notes);
            && |From(pairs, SetOf(names[..k + 1]))| == |From(pairs, SetOf(names[..k]))| + |Targets(links, notes, names[k])|
            && |Into(pairs, SetOf(names[..k + 1]))| == |Into(pairs, SetOf(names[..k]))| + |Sources(links, notes, names[k])|
  {
    SetOfPrefix(names, k);
    PairsOfNote(links, notes, names[k]);
    FromSplit(Pairs(links, notes), SetOf(names[..k]), names[k]);
  }

  lemma {:induction false} NotesCountPairs(names: seq<Path>, links: seq<Link>, notes: set<Path>)
    requires Distinct(names)
    ensures IncomingNotes(names, links, notes) == |From(Pairs(links, notes), SetOf(names))|
    ensures OutgoingNotes(names, links, notes) == |Into(Pairs(links, notes), SetOf(names))|
  {
    if names == [] {
      assert From(Pairs(links, notes), SetOf(names)) == {} && Into(Pairs(links, notes), SetOf(names)) == {};
    } else {
      var k := |names| - 1;
      assert names[..k + 1] == names;
      NoteStep(names, links, notes, k);
      NotesCountPairs(names[..k], links, notes);
    }
  }

  /** Both note counts add up to the number of distinct linked pairs of notes. */
  lemma NotePairsAreConserved(names: seq<Path>, links: seq<Link>, notes: set<Path>)
    requires Distinct(names) && (forall n :: n in names <==> n in notes) && forall l | l in links :: l.source in notes
    ensures IncomingNotes(names, links, notes) == |Pairs(links, notes)|
    ensures OutgoingNotes(names, links, notes) == |Pairs(links, notes)|
  {
    NotesCountPairs(names, links, notes);
    assert forall i | 0 <= i < |links| :: links[i] in links;
    assert From(Pairs(links, notes), SetOf(names)) == Pairs(links, notes);
    assert Into(Pairs(links, notes), SetOf(names)) == Pairs(links, notes);
  }

  // ----- orphans -----

  predicate NoBacklink(c: Counts) { |c.incoming| == 0 }

  predicate HardOrphan(c: Counts) { NoBacklink(c) && |c.outgoing| == 0 }

  predicate OutboundOnly(c: Counts) { NoBacklink(c) && |c.outgoing| > 0 }

  /** Every reported orphan is hard or outbound-only, never both. A note is
      reported exactly when it links to no other note, and it is hard exactly
      when no other note links to it either. */
  lemma OrphanReport(links: seq<Link>, notes: set<Path>, n: Path)
    ensures var c := CountsOf(links, notes, n);
            && (NoBacklink(c) <==> HardOrphan(c) || OutboundOnly(c)) && !(HardOrphan(c) && OutboundOnly(c))
            && (NoBacklink(c) <==> Targets(links, notes, n) == {})
            && (HardOrphan(c) <==> Targets(links, notes, n) == {} && Sources(links, notes, n) == {})
  {
  }

  /** A line of the report. */
  datatype Orphan = Orphan(path: Path, hard: bool, outboundOnly: bool)

  function OrphanLine(n: Path, c: Counts): Orphan { Orphan(n, |c.outgoing| == 0, |c.outgoing| > 0) }

  function Orphans(names: seq<Path>, table: map<Path, Counts>): seq<Orphan>
    requires forall n | n in names :: n in table
  {
    if names == [] then []
    else
      var last := names[|names| - 1];
      Orphans(names[..|names| - 1], table) + if NoBacklink(table[last]) then [OrphanLine(last, table[last])] else []
  }

  /** The report over the counted notes, in the order of their names. */
  method ListOrphans(names: seq<Path>, table: map<Path, Counts>) returns (orphans: seq<Orphan>)
    requires forall n | n in names :: n in table
    ensures orphans == Orphans(names, table)
  {
    orphans := [];
    for k := 0 to |names|
      invariant orphans == Orphans(names[..k], table)
    {
      assert names[..k + 1][..k] == names[..k];
      var c := table[names[k]];
      if |c.incoming| == 0 {
        orphans := orphans + [Orphan(names[k], |c.outgoing| == 0, |c.outgoing| > 0)];
      }
    }
    assert names[..|names|] == names;
  }

  function Hard(orphans: seq<Orphan>): set<Path> { set o | o in orphans && o.hard :: o.path }

  function Outbound(orphans: seq<Orphan>): set<Path> { set o | o in orphans && o.outboundOnly :: o.path }

  function Reported(orphans: seq<Orphan>): set<Path> { set o | o in orphans :: o.path }

  ghost predicate DistinctPaths(orphans: seq<Orphan>) {
    forall i, j | 0 <= i < j < |orphans| :: orphans[i].path != orphans[j].path
  }

  /** The aggregate counts are the sizes of the sets the report names. */
  method CountOrphans(orphans: seq<Orphan>) returns (hard: nat, reported: nat, outbound: nat)
    requires DistinctPaths(orphans)
    ensures hard == |Hard(orphans)| && reported == |Reported(orphans)| && outbound == |Outbound(orphans)|
  {
    hard, reported, outbound := 0, 0, 0;
    for k := 0 to |orphans|
      invariant hard == |Hard(orphans[..k])| && reported == |Reported(orphans[..k])| && outbound == |Outbound(orphans[..k])|
    {
      OneMoreOrphan(orphans, k);
      if orphans[k].hard {
        hard := hard + 1;
      }
      reported := reported + 1;
      if orphans[k].outboundOnly {
        outbound := outbound + 1;
      }
    }
    assert orphans[..|orphans|] == orphans;
  }

  lemma HardStep(before: seq<Orphan>, o: Orphan)
    requires o.path !in Reported(before)
    ensures |Hard(before + [o])| == |Hard(before)| + if o.hard then 1 else 0
  {
    assert forall x :: x in before + [o] <==> x in before || x == o;
    assert Hard(before + [o]) == Hard(before) + if o.hard then {o.path} else {};
  }

  lemma ReportedStep(before: seq<Orphan>, o: Orphan)
    requires o.path !in Reported(before)
    ensures |Reported(before + [o])| == |Reported(before)| + 1
  {
    assert forall x :: x in before + [o] <==> x in before || x == o;
    assert Reported(before + [o]) == Reported(before) + {o.path};
  }

  lemma OutboundStep(before: seq<Orphan>, o: Orphan)
    requires o.path !in Reported(before)
    ensures |Outbound(before + [o])| == |Outbound(before)| + if o.outboundOnly then 1 else 0
  {
    assert forall x :: x in before + [o] <==> x in before || x == o;
    assert Outbound(before + [o]) == Outbound(before) + if o.outboundOnly then {o.path} else {};
  }

  lemma OneMoreOrphan(orphans: seq<Orphan>, k: nat)
    requires k < |orphans| && DistinctPaths(orphans)
    ensures |Hard(orphans[..k + 1])| == |Hard(orphans[..k])| + if orphans[k].hard then 1 else 0
    ensures |Reported(orphans[..k + 1])| == |Reported(orphans[..k])| + 1
    ensures |Outbound(orphans[..k + 1])| == |Outbound(orphans[..k])| + if orphans[k].outboundOnly then 1 else 0
  {
    assert orphans[..k + 1] == orphans[..k] + [orphans[k]];
    assert orphans[k].path !in Reported(orphans[..k]);
    HardStep(orphans[..k], orphans[k]);
    ReportedStep(orphans[..k], orphans[k]);
    OutboundStep(orphans[..k], orphans[k]);
  }

  lemma {:induction false} OrphanLines(names: seq<Path>, table: map<Path, Counts>)
    requires Distinct(names) && forall n | n in names :: n in table
    ensures DistinctPaths(Orphans(names, table))
    ensures forall o :: o in Orphans(names, table) <==>
              o.path in names && NoBacklink(table[o.path]) && o == OrphanLine(o.path, table[o.path])
  {
    if names != [] {
      var init, last := names[..|names| - 1], names[|names| - 1];
      assert names == init + [last];
      OrphanLines(init, table);
      var before := Orphans(init, table);
      assert forall i | 0 <= i < |before| :: before[i] in before && before[i].path != last;
    }
  }

  /** The notes that link to another note, and the notes another note links to. */
  function LinkingOut(links: seq<Link>, notes: set<Path>): set<Path> { set p | p in Pairs(links, notes) :: p.0 }

  function LinkedTo(links: seq<Link>, notes: set<Path>): set<Path> { set p | p in Pairs(links, notes) :: p.1 }

  /** What the counting pass leaves behind. */
  function Table(links: seq<Link>, notes: set<Path>): map<Path, Counts> { map n | n in notes :: CountsOf(links, notes, n) }

  lemma OutIffTargets(links: seq<Link>, notes: set<Path>, n: Path)
    ensures n in LinkingOut(links, notes) <==> Targets(links, notes, n) != {}
    ensures n in LinkedTo(links, notes) <==> Sources(links, notes, n) != {}
  {
    var pairs := Pairs(links, notes);
    assert forall x :: (n, x) in pairs <==> x in Targets(links, notes, n);
    assert forall x :: (x, n) in pairs <==> x in Sources(links, notes, n);
    assert forall p | p in pairs :: p == (p.0, p.1);
  }

  /** The reported notes are those that link to no other note. */
  lemma ReportedAre(names: seq<Path>, links: seq<Link>, notes: set<Path>)
    requires Distinct(names) && (forall n :: n in names <==> n in notes)
    ensures var orphans := Orphans(names, Table(links, notes));
            && Reported(orphans) == notes - LinkingOut(links, notes)
            && Hard(orphans) == notes - LinkingOut(links, notes) - LinkedTo(links, notes)
            && Outbound(orphans) == LinkedTo(links, notes) * notes - LinkingOut(links, notes)
  {
    var table := Table(links, notes);
    var orphans := Orphans(names, table);
    OrphanLines(names, table);
    forall n
      ensures n in Reported(orphans) <==> n in notes && n !in LinkingOut(links, notes)
      ensures n in Hard(orphans) <==> n in notes && n !in LinkingOut(links, notes) && n !in LinkedTo(links, notes)
      ensures n in Outbound(orphans) <==> n in notes && n !in LinkingOut(links, notes) && n in LinkedTo(links, notes)
    {
      OutIffTargets(links, notes, n);
      if n in notes {
        OrphanReport(links, notes, n);
        assert OrphanLine(n, table[n]) in orphans <==> NoBacklink(table[n]);
      }
    }
  }

  /** The totals of a report: hard and outbound-only orphans make up the reported
      ones, and these with the notes that link out make up the corpus. */
  lemma OrphanTotals(names: seq<Path>, links: seq<Link>, notes: set<Path>)
    requires Distinct(names) && (forall n :: n in names <==> n in notes) && forall l | l in links :: l.source in notes
    ensures var orphans := Orphans(names, Table(links, notes));
            && |Hard(orphans)| + |Outbound(orphans)| == |Reported(orphans)|
            && |Reported(orphans)| + |LinkingOut(links, notes)| == |notes|
  {
    var orphans := Orphans(names, Table(links, notes));
    ReportedAre(names, links, notes);
    PairsInNotes(links, notes);
    SizesAdd(Hard(orphans), Outbound(orphans), Reported(orphans));
    SizesAdd(Reported(orphans), LinkingOut(links, notes), notes);
  }

  lemma SizesAdd(a: set<Path>, b: set<Path>, whole: set<Path>)
    requires a !! b && forall x :: x in whole <==> x in a || x in b
    ensures |a| + |b| == |whole|
  {
    assert a + b == whole;
  }

  lemma PairsInNotes(links: seq<Link>, notes: set<Path>)
    requires forall l | l in links :: l.source in notes
    ensures LinkingOut(links, notes) <= notes && LinkedTo(links, notes) <= notes
  {
    assert forall i | 0 <= i < |links| :: links[i] in links;
  }

  /** The report claims to name the notes without backlinks. It names wrongly
      exactly the notes that are linked to but link nowhere, and leaves out
      exactly those that link out but are linked from nowhere; so it is right for
      a corpus exactly when the notes that link out are the notes linked to. */
  lemma ReportIsBacklinksIff(names: seq<Path>, links: seq<Link>, notes: set<Path>)
    requires Distinct(names) && (forall n :: n in names <==> n in notes) && forall l | l in links :: l.source in notes
    ensures var reported, unlinked := Reported(Orphans(names, Table(links, notes))), notes - LinkedTo(links, notes);
            && reported - unlinked == LinkedTo(links, notes) - LinkingOut(links, notes)
            && unlinked - reported == LinkingOut(links, notes) - LinkedTo(links, notes)
            && (reported == unlinked <==> LinkingOut(links, notes) == LinkedTo(links, notes))
  {
    var reported, unlinked := Reported(Orphans(names, Table(links, notes))), notes - LinkedTo(links, notes);
    var out, to := LinkingOut(links, notes), LinkedTo(links, notes);
    ReportedAre(names, links, notes);
    PairsInNotes(links, notes);
    assert reported - unlinked == to - out && unlinked - reported == out - to;
    assert out == notes - reported && to == notes - unlinked;
  }

  /** One link between two notes: the linked note is reported as having no
      backlink, the linking one, which has none, is not. */
  lemma LinkedNoteIsReported(links: seq<Link>, notes: set<Path>, k: nat)
    requires k < |links| && ToNote(links[k], notes) && links[k].source != links[k].resolution.target
    requires Targets(links, notes, links[k].resolution.target) == {}
    ensures var target := links[k].resolution.target;
            && NoBacklink(CountsOf(links, notes, target)) && links[k].source in Sources(links, notes, target)
            && OutboundOnly(CountsOf(links, notes, target))
            && !NoBacklink(CountsOf(links, notes, links[k].source))
  {
    var target := links[k].resolution.target;
    assert links[k].source in Sources(links, notes, target);
    assert target in Targets(links, notes, links[k].source);
    assert |Targets(links, notes, links[k].source)| != 0;
  }
}
