/** The whole automaton path: visit the tree, close the follow table with end
    entries, explore source rows, check them, and determinize. */
module DfaCompilers {
  import opened Schema
  import opened Languages
  import opened ContentLanguage
  import opened PositionAutomaton
  import opened GuardPairs
  import opened PositionBuilder
  import opened DfaBuilding
  import opened Overlap
  import opened SourceRows
  import opened SourceTables
  import opened CappedCounters
  import opened CompiledRows
  import opened SubsetRows
  import opened SubsetTables
  import opened StateSpaces
  import opened Normal

  /** Compiled rows with their start state. */
  datatype DfaRows = DfaRows(rows: seq<Row>, start: nat)

  datatype SourceTableResult = SourceTableResult(rows: seq<SourceRow>, start: nat, counters: nat)

  /** The rows are sound to run without backtracking and accept exactly l. */
  ghost predicate Compiles(t: Tables, d: DfaRows, l: Lang) {
    match d case DfaRows(rows, start) =>
      && start < |rows| && !rows[start].counted && WellFormedRows(t, rows) && Acyclic(t.models) && UpaClean(t, rows)
      && forall w :: RowsAccept(t, rows, start, w) <==> w in l
  }

  // ----- end entries -----

  function EndEntry(tail: Entry): Entry {
    Entry(END_POS, tail.guards, tail.actions)
  }

  ghost function EndEdges(lasts: set<Entry>): set<Edge> {
    set tail | tail in lasts :: Edge(tail.pos, EndEntry(tail))
  }

  method AddEndFollows(b: DfaBuilder, lasts: seq<Entry>)
    requires b.Valid() && forall e :: e in lasts ==> 0 <= e.pos < |b.positions|
    modifies b`follow
    ensures b.Valid()
    ensures Edges(b.follow) == Edges(old(b.follow)) + EndEdges(Elements(lasts))
  {
    for i := 0 to |lasts|
      invariant b.Valid()
      invariant Edges(b.follow) == Edges(old(b.follow)) + EndEdges(Elements(lasts[..i]))
    {
      assert lasts[..i + 1] == lasts[..i] + [lasts[i]];
      assert Elements(lasts[..i + 1]) == Elements(lasts[..i]) + {lasts[i]};
      b.AddFollow(lasts[i].pos, EndEntry(lasts[i]));
    }
    assert lasts[..|lasts|] == lasts;
  }

  lemma FollowAtEdge(follow: FollowTable, p: int, e: Entry)
    ensures e in FollowAt(follow, p) <==> Edge(p, e) in Edges(follow)
  {
  }

  /** Closing the follow table adds acceptance and nothing else. */
  lemma EndFollows(part: BuiltPart, follow: FollowTable, p: int)
    requires Edges(follow) == Edges(part.follow) + EndEdges(Elements(part.node.last)) && p in part.live
    ensures FollowsLike(follow, p, part.Frag())
  {
    var f := part.Frag();
    forall e
      ensures e in FollowAt(follow, p) && e.pos != END_POS <==> Edge(p, e) in f.edges
      ensures e in FollowAt(follow, p) && e.pos == END_POS ==>
                exists last :: last in f.last && last.pos == p && last.guards == e.guards
    {
      FollowAtEdge(follow, p, e);
      if e in FollowAt(follow, p) && e.pos == END_POS {
        assert Edge(p, e) !in f.edges;
        var tail :| tail in f.last && Edge(tail.pos, EndEntry(tail)) == Edge(p, e);
      }
    }
    forall last | last in f.last && last.pos == p
      ensures exists e :: e in FollowAt(follow, p) && e.pos == END_POS && last.guards == e.guards
    {
      FollowAtEdge(follow, p, EndEntry(last));
    }
  }

  function StartEntries(node: DfaNode): seq<Entry> {
    if node.nullable then node.first + [Entry(END_POS, [], [])] else node.first
  }

  lemma StartsAreStarts(part: BuiltPart, entries: seq<Entry>)
    requires Elements(entries) == Elements(StartEntries(part.node))
    ensures StartsLike(entries, part.Frag())
  {
    var f := part.Frag();
    forall e
      ensures e in entries <==> e in f.first || (part.node.nullable && e == Entry(END_POS, [], []))
    {
      assert e in entries <==> e in Elements(entries);
      assert e in Elements(StartEntries(part.node)) <==> e in StartEntries(part.node);
    }
    if f.nullable {
      assert Entry(END_POS, [], []) in entries;
    }
  }

  /** The explored rows stand for the finished automaton. */
  ghost function FinishedGraph(part: BuiltPart, follow: FollowTable, order: seq<seq<Entry>>, rows: seq<SourceRow>, start: nat): (g: Graph)
    requires Edges(follow) == Edges(part.follow) + EndEdges(Elements(part.node.last))
    requires start < |order| == |rows| && Elements(order[start]) == Elements(StartEntries(part.node))
    requires RowsFor(rows, follow, part.labels, order)
    ensures g == GraphCase(part.t, part.labels, part.Frag(), part.live, follow, order, rows, start, part.s.endSlot)
  {
    var g := GraphCase(part.t, part.labels, part.Frag(), part.live, follow, order, rows, start, part.s.endSlot);
    forall p | p in g.live
      ensures FollowsLike(follow, p, g.f)
    {
      EndFollows(part, follow, p);
    }
    StartsAreStarts(part, order[start]);
    g
  }

  lemma FinishedAccepts(part: BuiltPart, g: Graph, w: Word)
    requires g.t == part.t && g.labels == part.labels && g.f == part.Frag() && g.k == part.s.endSlot
    ensures SourceAccepts(g.t, g.rows, g.start, g.k, w) <==> w in part.l
  {
    SourceAcceptsIff(g, w);
    assert ZeroOn(Zeros(g.k), g.f.slots);
  }

  /** The explored rows accept exactly a language. */
  ghost predicate Recognizes(t: Tables, s: SourceTableResult, l: Lang) {
    match s case SourceTableResult(rows, start, k) =>
      forall w :: SourceAccepts(t, rows, start, k, w) <==> w in l
  }

  lemma FinishedLanguage(part: BuiltPart, g: Graph)
    requires g.t == part.t && g.labels == part.labels && g.f == part.Frag() && g.k == part.s.endSlot
    ensures Recognizes(g.t, SourceTableResult(g.rows, g.start, g.k), part.l)
  {
    forall w
      ensures SourceAccepts(g.t, g.rows, g.start, g.k, w) <==> w in part.l
    {
      FinishedAccepts(part, g, w);
    }
  }

  // ----- the finished automaton -----

  /** A position automaton whose follow table is closed with end entries. */
  datatype Automaton = Automaton(part: Part, follow: FollowTable)

  ghost predicate Finished(a: Automaton) {
    Built(a.part) && Edges(a.follow) == Edges(a.part.follow) + EndEdges(Elements(a.part.node.last))
  }

  ghost function StartSet(a: Automaton): set<Entry> {
    Elements(StartEntries(a.part.node))
  }

  /** More sets of entries can be current than there is room for. */
  ghost predicate TooManyEntrySets(a: Automaton, limit: nat) {
    MoreStates(EntrySteps(a.follow), StartSet(a), Room(limit))
  }

  /** The entries that can be current. */
  ghost function KnownOf(a: Automaton): set<Entry> {
    var f := a.part.Frag();
    f.first + (set d | d in f.edges :: d.entry) + (set tail | tail in f.last :: EndEntry(tail)) + {Entry(END_POS, [], [])}
  }

  lemma {:induction false} KnownIsClosed(a: Automaton)
    requires Finished(a)
    ensures KnownEntries(|a.part.labels|, a.follow, KnownOf(a)) && Knows(KnownOf(a), StartEntries(a.part.node))
    ensures forall e :: e in KnownOf(a) ==> ActionsFit(a.part.s.endSlot, e.actions)
  {
    var f := a.part.Frag();
    forall e, x | e in KnownOf(a) && e.pos != END_POS && x in FollowAt(a.follow, e.pos)
      ensures x in KnownOf(a)
    {
      FollowAtEdge(a.follow, e.pos, x);
      if Edge(e.pos, x) in Edges(a.part.follow) {
        assert Edge(e.pos, x) in f.edges;
      } else {
        var tail :| tail in f.last && Edge(tail.pos, EndEntry(tail)) == Edge(e.pos, x);
      }
    }
    forall e | e in KnownOf(a)
      ensures ActionsFit(a.part.s.endSlot, e.actions)
    {
      KnownFits(a.part, e);
    }
    assert forall e :: e in a.part.node.first ==> e in f.first;
  }

  lemma KnownFits(part: BuiltPart, e: Entry)
    requires e in KnownOf(Automaton(part, part.follow))
    ensures ActionsFit(part.s.endSlot, e.actions)
  {
    var f := part.Frag();
    assert Within(f, part.s.lo, part.s.hi, part.s.endSlot);
    if tail :| tail in f.last && e == EndEntry(tail) {
      assert EntryIn(tail, f.slots, part.s.lo, part.s.hi);
    } else if d :| d in f.edges && d.entry == e {
      assert EntryIn(d.entry, f.slots, part.s.lo, part.s.hi);
    }
  }

  /** The guards that can occur share the bounds of the repetitions they belong to. */
  lemma KnownBounds(a: Automaton) returns (b: Bounds)
    requires Finished(a)
    ensures forall e :: e in KnownOf(a) ==> GuardsBounded(b, e.guards)
  {
    var f := a.part.Frag();
    b :| FragmentBounded(b, f);
    forall e | e in KnownOf(a)
      ensures GuardsBounded(b, e.guards)
    {
      if tail :| tail in f.last && e == EndEntry(tail) {
        assert GuardsBounded(b, tail.guards);
      } else if d :| d in f.edges && d.entry == e {
        assert GuardsBounded(b, d.entry.guards);
      }
    }
  }

  /** The rows of a finished automaton: one for each set of entries that is reached. */
  ghost predicate TableFor(a: Automaton, s: SourceTableResult, order: seq<seq<Entry>>) {
    && order != [] && |order| == |s.rows| && s.start < |order| && s.counters == a.part.s.endSlot
    && Elements(order[0]) == StartSet(a) && order[0] == order[s.start]
    && RowsFor(s.rows, a.follow, a.part.labels, order)
    && (forall i :: 0 <= i < |order| ==> Ascending(s.rows[i]) && Knows(KnownOf(a), order[i]))
    && Different(EntrySets(order)) && AllReached(EntrySteps(a.follow), StartSet(a), EntrySets(order))
  }

  ghost predicate TableOf(a: Automaton, s: SourceTableResult) {
    exists order: seq<seq<Entry>> :: TableFor(a, s, order)
  }

  lemma TableFits(a: Automaton, s: SourceTableResult, order: seq<seq<Entry>>)
    requires Finished(a) && TableFor(a, s, order)
    ensures SourceFits(s.rows, s.counters)
  {
    KnownIsClosed(a);
    forall i, e | 0 <= i < |s.rows| && e in s.rows[i].edges
      ensures e.to < |s.rows| && ActionsFit(s.counters, e.actions)
    {
      assert RowFor(s.rows[i], order[i], a.follow, a.part.labels, order);
      assert Entry(e.pos, e.guards, e.actions) in KnownOf(a);
    }
  }

  // ----- unique particle attribution on source rows -----

  predicate SourceCountingException(a: SourceEdge, b: SourceEdge) {
    Complementary(a.guards, b.guards) || Complementary(b.guards, a.guards)
  }

  predicate EdgesClash(t: Tables, a: SourceEdge, b: SourceEdge)
    requires Acyclic(t.models)
  {
    a.pos != b.pos && TermsOverlap(t, a.term, b.term) && !SourceCountingException(a, b)
  }

  ghost predicate SourceRowClean(t: Tables, row: SourceRow)
    requires Acyclic(t.models)
  {
    forall i, j :: 0 <= i < j < |row.edges| ==> !EdgesClash(t, row.edges[i], row.edges[j])
  }

  ghost predicate SourceClean(t: Tables, rows: seq<SourceRow>)
    requires Acyclic(t.models)
  {
    forall s :: 0 <= s < |rows| ==> SourceRowClean(t, rows[s])
  }

  /** Whatever the counters and the child, the row's enabled edges that match have one position. */
  ghost predicate RowDecides(t: Tables, row: SourceRow) {
    forall c, input, i, j :: 0 <= i < j < |row.edges| && EdgeOpen(t, row.edges[i], c, input) && EdgeOpen(t, row.edges[j], c, input) ==>
      row.edges[i].pos == row.edges[j].pos
  }

  predicate EdgeOpen(t: Tables, e: SourceEdge, c: Counters, input: Input) {
    Enabled(c, e.guards) && TermMatches(t, e.term, input)
  }

  lemma CleanRowDecides(t: Tables, row: SourceRow)
    requires Acyclic(t.models) && WellFormedSubstitutions(t) && SourceRowClean(t, row)
    ensures RowDecides(t, row)
  {
    forall c, input, i, j | 0 <= i < j < |row.edges| && EdgeOpen(t, row.edges[i], c, input) && EdgeOpen(t, row.edges[j], c, input)
      ensures row.edges[i].pos == row.edges[j].pos
    {
      var d, e := row.edges[i], row.edges[j];
      BothMatchOverlap(t, d.term, e.term, input);
      assert !EdgesClash(t, d, e);
      if Complementary(d.guards, e.guards) {
        ComplementaryExcludes(d.guards, e.guards);
      } else if Complementary(e.guards, d.guards) {
        ComplementaryExcludes(e.guards, d.guards);
      }
    }
  }

  method CheckSourceRow(t: Tables, row: SourceRow) returns (ok: bool)
    requires Acyclic(t.models)
    ensures ok <==> SourceRowClean(t, row)
  {
    var terms := seq(|row.edges|, i requires 0 <= i < |row.edges| => row.edges[i].term);
    var needed := NeedUpaCheck(t, terms);
    if !needed {
      forall i, j | 0 <= i < j < |row.edges|
        ensures !EdgesClash(t, row.edges[i], row.edges[j])
      {
        assert !TermsOverlap(t, terms[i], terms[j]);
      }
      return true;
    }
    for i := 0 to |row.edges|
      invariant forall a, b :: 0 <= a < i && a < b < |row.edges| ==> !EdgesClash(t, row.edges[a], row.edges[b])
    {
      for j := i + 1 to |row.edges|
        invariant forall b :: i < b < j ==> !EdgesClash(t, row.edges[i], row.edges[b])
      {
        if EdgesClash(t, row.edges[i], row.edges[j]) {
          return false;
        }
      }
    }
    return true;
  }

  method CheckSourceUpa(t: Tables, rows: seq<SourceRow>) returns (ok: bool)
    requires Acyclic(t.models)
    ensures ok <==> SourceClean(t, rows)
    ensures ok && WellFormedSubstitutions(t) ==> forall s :: 0 <= s < |rows| ==> RowDecides(t, rows[s])
  {
    for s := 0 to |rows|
      invariant forall k :: 0 <= k < s ==> SourceRowClean(t, rows[k])
    {
      ok := CheckSourceRow(t, rows[s]);
      if !ok {
        return;
      }
    }
    if WellFormedSubstitutions(t) {
      forall s | 0 <= s < |rows|
        ensures RowDecides(t, rows[s])
      {
        CleanRowDecides(t, rows[s]);
      }
    }
    return true;
  }

  /** Two entries for different positions that share a first child, both enabled by some
      counters. */
  ghost predicate EntriesClash(t: Tables, labels: seq<Term>, x: Entry, y: Entry)
    requires Acyclic(t.models)
  {
    && 0 <= x.pos < y.pos < |labels| && TermsOverlap(t, labels[x.pos], labels[y.pos])
    && EnabledTogether(x.guards, y.guards)
  }

  ghost predicate ClashIn(t: Tables, a: Automaton, s: set<Entry>, x: Entry, y: Entry)
    requires Acyclic(t.models)
  {
    Reached(EntrySteps(a.follow), StartSet(a), s) && x in s && y in s && EntriesClash(t, a.part.labels, x, y)
  }

  ghost predicate EntryClash(t: Tables, a: Automaton)
    requires Acyclic(t.models)
  {
    exists s, x, y :: ClashIn(t, a, s, x, y)
  }

  /** The row check looks for exactly such a pair. */
  lemma {:induction false} SourceCleanIff(t: Tables, a: Automaton, s: SourceTableResult, order: seq<seq<Entry>>)
    requires Acyclic(t.models) && Finished(a) && TableFor(a, s, order)
    ensures SourceClean(t, s.rows) <==> !EntryClash(t, a)
  {
    var b := KnownBounds(a);
    if EntryClash(t, a) {
      var set', x, y :| ClashIn(t, a, set', x, y);
      ExploredAll(a.follow, a.part.labels, order, s.rows);
      ReachedFound(EntrySteps(a.follow), StartSet(a), EntrySets(order), set');
      var i :| 0 <= i < |order| && EntrySets(order)[i] == set';
      assert RowFor(s.rows[i], order[i], a.follow, a.part.labels, order) && Ascending(s.rows[i]);
      TogetherIff(b, x.guards, y.guards);
      ClashOnRow(t, a, s.rows[i], order, i, x, y);
    }
    if !SourceClean(t, s.rows) {
      var i :| 0 <= i < |s.rows| && !SourceRowClean(t, s.rows[i]);
      assert RowFor(s.rows[i], order[i], a.follow, a.part.labels, order) && Ascending(s.rows[i]);
      var x, y := RowClashes(t, a, s.rows[i], order, i);
      TogetherIff(b, x.guards, y.guards);
      assert Reached(EntrySteps(a.follow), StartSet(a), EntrySets(order)[i]);
      assert ClashIn(t, a, Elements(order[i]), x, y);
    }
  }

  /** What the row check refuses. */
  ghost predicate EntriesRefused(t: Tables, labels: seq<Term>, x: Entry, y: Entry)
    requires Acyclic(t.models)
  {
    && 0 <= x.pos < y.pos < |labels| && TermsOverlap(t, labels[x.pos], labels[y.pos])
    && !Complementary(x.guards, y.guards) && !Complementary(y.guards, x.guards)
  }

  lemma ClashOnRow(t: Tables, a: Automaton, row: SourceRow, order: seq<seq<Entry>>, i: nat, x: Entry, y: Entry)
    requires Acyclic(t.models) && i < |order| && RowFor(row, order[i], a.follow, a.part.labels, order) && Ascending(row)
    requires x in order[i] && y in order[i] && EntriesRefused(t, a.part.labels, x, y)
    ensures !SourceRowClean(t, row)
  {
    var j := EntryEdge(row, order[i], a, order, x);
    var k := EntryEdge(row, order[i], a, order, y);
    assert j < k;
    assert EdgesClash(t, row.edges[j], row.edges[k]);
  }

  lemma EntryEdge(row: SourceRow, entries: seq<Entry>, a: Automaton, order: seq<seq<Entry>>, x: Entry) returns (j: nat)
    requires RowFor(row, entries, a.follow, a.part.labels, order) && x in entries && x.pos != END_POS
    ensures j < |row.edges| && Entry(row.edges[j].pos, row.edges[j].guards, row.edges[j].actions) == x
    ensures row.edges[j].pos < |a.part.labels| && row.edges[j].term == a.part.labels[row.edges[j].pos]
  {
    var d :| d in row.edges && Entry(d.pos, d.guards, d.actions) == x;
    j :| 0 <= j < |row.edges| && row.edges[j] == d;
  }

  lemma RowClashes(t: Tables, a: Automaton, row: SourceRow, order: seq<seq<Entry>>, i: nat) returns (x: Entry, y: Entry)
    requires Acyclic(t.models) && i < |order| && RowFor(row, order[i], a.follow, a.part.labels, order) && Ascending(row)
    requires !SourceRowClean(t, row)
    ensures x in order[i] && y in order[i] && EntriesRefused(t, a.part.labels, x, y)
  {
    var j, k :| 0 <= j < k < |row.edges| && EdgesClash(t, row.edges[j], row.edges[k]);
    var d, e := row.edges[j], row.edges[k];
    assert d in row.edges && e in row.edges;
    x, y := Entry(d.pos, d.guards, d.actions), Entry(e.pos, e.guards, e.actions);
  }

  /** An automaton that is not refused decides: of the entries that can be current, those
      that some counters enable and that match one child have one position. */
  lemma OnePosition(t: Tables, a: Automaton, s: set<Entry>, c: Counters, input: Input, x: Entry, y: Entry)
    requires Acyclic(t.models) && WellFormedSubstitutions(t) && !EntryClash(t, a)
    requires Reached(EntrySteps(a.follow), StartSet(a), s) && x in s && y in s
    requires Enabled(c, x.guards) && Enabled(c, y.guards)
    requires Hits(t, a.part.labels, x.pos, input) && Hits(t, a.part.labels, y.pos, input)
    ensures x.pos == y.pos
  {
    BothMatchOverlap(t, a.part.labels[x.pos], a.part.labels[y.pos], input);
    BothMatchOverlap(t, a.part.labels[y.pos], a.part.labels[x.pos], input);
    assert !ClashIn(t, a, s, x, y) && !ClashIn(t, a, s, y, x);
  }

  // ----- from source rows to deterministic rows -----

  ghost predicate Leads(srows: seq<SourceRow>, caps: Counters, s: set<Config>, term: Term) {
    exists to :: MovesFrom(srows, caps, s, term, to)
  }

  /** A set of configurations that is reached has enabled edges under two terms that share
      a first child. */
  ghost predicate TermsMeet(t: Tables, srows: seq<SourceRow>, caps: Counters, s: set<Config>, x: Term, y: Term)
    requires Acyclic(t.models)
  {
    Leads(srows, caps, s, x) && Leads(srows, caps, s, y) && LexLess(TermKey(x), TermKey(y)) && TermsOverlap(t, x, y)
  }

  ghost predicate MeetIn(t: Tables, srows: seq<SourceRow>, caps: Counters, start: set<Config>, s: set<Config>, x: Term, y: Term)
    requires Acyclic(t.models)
  {
    Reached(ConfigSteps(srows, caps), start, s) && TermsMeet(t, srows, caps, s, x, y)
  }

  ghost predicate ConfigClash(t: Tables, srows: seq<SourceRow>, caps: Counters, start: set<Config>)
    requires Acyclic(t.models)
  {
    exists s, x, y :: MeetIn(t, srows, caps, start, s, x, y)
  }

  /** What the deterministic stage is given, with its counters at their least caps. */
  ghost predicate TooManyConfigSets(s: SourceTableResult, limit: nat) {
    exists caps :: LeastCaps(caps, s.rows, s.counters)
                   && TooManyConfigs(s.rows, caps, {Config(s.start, Zeros(s.counters))}, limit)
  }

  ghost predicate TermClash(t: Tables, s: SourceTableResult)
    requires Acyclic(t.models)
  {
    exists caps :: LeastCaps(caps, s.rows, s.counters)
                   && ConfigClash(t, s.rows, caps, {Config(s.start, Zeros(s.counters))})
  }

  lemma CapsUnique(a: Counters, b: Counters, rows: seq<SourceRow>, k: nat)
    requires LeastCaps(a, rows, k) && LeastCaps(b, rows, k)
    ensures a == b
  {
    assert AtLeast(a, b) && AtLeast(b, a);
  }

  lemma TheseCaps(t: Tables, s: SourceTableResult, caps: Counters, limit: nat)
    requires Acyclic(t.models) && LeastCaps(caps, s.rows, s.counters)
    ensures TooManyConfigSets(s, limit) <==> TooManyConfigs(s.rows, caps, {Config(s.start, Zeros(s.counters))}, limit)
    ensures TermClash(t, s) <==> ConfigClash(t, s.rows, caps, {Config(s.start, Zeros(s.counters))})
  {
    forall other | LeastCaps(other, s.rows, s.counters)
      ensures other == caps
    {
      CapsUnique(other, caps, s.rows, s.counters);
    }
  }

  /** The row check looks for exactly such a pair of terms. */
  lemma {:induction false} DetCleanIff(t: Tables, srows: seq<SourceRow>, caps: Counters, limit: nat, order: seq<seq<Config>>, rows: seq<Row>)
    requires Acyclic(t.models) && order != [] && |rows| == |order| && RowsStandFor(rows, srows, caps, order)
    requires ConfigStates(srows, caps, limit, order) && forall i :: 0 <= i < |rows| ==> RowTermsUsed(srows, rows[i])
    ensures UpaClean(t, rows) <==> !ConfigClash(t, srows, caps, Elements(order[0]))
  {
    var start := Elements(order[0]);
    if ConfigClash(t, srows, caps, start) {
      var s, x, y :| MeetIn(t, srows, caps, start, s, x, y);
      ConfigsExplored(srows, caps, order, rows);
      ReachedFound(ConfigSteps(srows, caps), start, ConfigSets(order), s);
      var i :| 0 <= i < |order| && ConfigSets(order)[i] == s;
      MeetOnRow(t, srows, caps, order, rows, i, x, y);
    }
    if !UpaClean(t, rows) {
      var i :| 0 <= i < |rows| && !EdgesApart(t, i, rows[i]);
      var x, y := RowMeets(t, srows, caps, limit, order, rows, i);
      assert Reached(ConfigSteps(srows, caps), start, ConfigSets(order)[i]);
      assert MeetIn(t, srows, caps, start, Elements(order[i]), x, y);
    }
  }

  lemma MeetOnRow(t: Tables, srows: seq<SourceRow>, caps: Counters, order: seq<seq<Config>>, rows: seq<Row>, i: nat, x: Term, y: Term)
    requires Acyclic(t.models) && |rows| == |order| && RowsStandFor(rows, srows, caps, order) && i < |rows|
    requires RowTermsUsed(srows, rows[i]) && TermsMeet(t, srows, caps, Elements(order[i]), x, y)
    ensures !EdgesApart(t, i, rows[i])
  {
    var j := TermEdge(srows, caps, order, rows, i, x);
    var k := TermEdge(srows, caps, order, rows, i, y);
    LexTotal(TermKey(x), TermKey(y));
    assert j < k;
    assert TermsOverlap(t, rows[i].edges[j].term, rows[i].edges[k].term);
    assert !CountingException(i, rows[i], rows[i].edges[j], rows[i].edges[k]) by {
      assert DetRowFor(rows[i], order[i], srows, caps, order);
    }
  }

  lemma {:induction false} TermEdge(srows: seq<SourceRow>, caps: Counters, order: seq<seq<Config>>, rows: seq<Row>, i: nat, x: Term) returns (j: nat)
    requires |rows| == |order| && RowsStandFor(rows, srows, caps, order) && i < |rows| && Leads(srows, caps, Elements(order[i]), x)
    ensures j < |rows[i].edges| && rows[i].edges[j].term == x
  {
    var to :| MovesFrom(srows, caps, Elements(order[i]), x, to);
    MovesAgree(srows, caps, order[i], x, to);
    assert DetRowFor(rows[i], order[i], srows, caps, order);
    var d :| d in rows[i].edges && d.term == x;
    j :| 0 <= j < |rows[i].edges| && rows[i].edges[j] == d;
  }

  lemma RowMeets(t: Tables, srows: seq<SourceRow>, caps: Counters, limit: nat, order: seq<seq<Config>>, rows: seq<Row>, i: nat)
    returns (x: Term, y: Term)
    requires Acyclic(t.models) && |rows| == |order| && RowsStandFor(rows, srows, caps, order) && i < |rows|
    requires ConfigStates(srows, caps, limit, order) && RowTermsUsed(srows, rows[i]) && !EdgesApart(t, i, rows[i])
    ensures TermsMeet(t, srows, caps, Elements(order[i]), x, y)
  {
    assert DetRowFor(rows[i], order[i], srows, caps, order);
    var j, k :| 0 <= j < k < |rows[i].edges| && TermsOverlap(t, rows[i].edges[j].term, rows[i].edges[k].term);
    x, y := rows[i].edges[j].term, rows[i].edges[k].term;
    EdgeLeads(srows, caps, limit, order, rows, i, j);
    EdgeLeads(srows, caps, limit, order, rows, i, k);
  }

  lemma EdgeLeads(srows: seq<SourceRow>, caps: Counters, limit: nat, order: seq<seq<Config>>, rows: seq<Row>, i: nat, j: nat)
    requires |rows| == |order| && RowsStandFor(rows, srows, caps, order) && ConfigStates(srows, caps, limit, order)
    requires i < |rows| && j < |rows[i].edges|
    ensures Leads(srows, caps, Elements(order[i]), rows[i].edges[j].term)
  {
    var d := rows[i].edges[j];
    assert DetRowFor(rows[i], order[i], srows, caps, order) && d in rows[i].edges;
    assert ConfigState(srows, caps, limit, order[d.to]);
    var to := order[d.to][0];
    assert to in order[d.to];
    MovesAgree(srows, caps, order[i], d.term, to);
  }

  /** The leaves of a tree do not overlap each other. */
  ghost predicate LeavesApart(t: Tables, leaves: seq<Term>)
    requires Acyclic(t.models)
  {
    forall i, j :: 0 <= i < |leaves| && 0 <= j < |leaves| && i != j ==> !TermsOverlap(t, leaves[i], leaves[j])
  }

  lemma ApartSourceClean(t: Tables, leaves: seq<Term>, follow: FollowTable, order: seq<seq<Entry>>, rows: seq<SourceRow>)
    requires Acyclic(t.models) && LeavesApart(t, leaves) && RowsFor(rows, follow, leaves, order)
    ensures SourceClean(t, rows) && TermsApart(t, rows)
  {
    forall s, e | 0 <= s < |rows| && e in rows[s].edges
      ensures e.pos < |leaves| && e.term == leaves[e.pos]
    {
      assert RowFor(rows[s], order[s], follow, leaves, order);
    }
    forall s, i, j | 0 <= s < |rows| && 0 <= i < j < |rows[s].edges|
      ensures !EdgesClash(t, rows[s].edges[i], rows[s].edges[j])
    {
      assert rows[s].edges[i] in rows[s].edges && rows[s].edges[j] in rows[s].edges;
    }
  }

  lemma FoundTermsValid(t: Tables, positions: seq<Particle>, follow: FollowTable, order: seq<seq<Entry>>, rows: seq<SourceRow>)
    requires forall i :: 0 <= i < |positions| ==> ValidTerm(t, positions[i].term)
    requires RowsFor(rows, follow, Labels(positions), order)
    ensures SourceTermsValid(t, rows)
  {
    forall i, j | 0 <= i < |rows| && 0 <= j < |rows[i].edges|
      ensures ValidTerm(t, rows[i].edges[j].term)
    {
      assert RowFor(rows[i], order[i], follow, Labels(positions), order);
      assert rows[i].edges[j] in rows[i].edges;
    }
  }

  lemma DetRowsWellFormed(t: Tables, b: Subset, table: SubsetTable)
    requires table.Working() && table.rows == b.rows && table.order == b.order && table.srows == b.srows && b.t == t
    requires SourceTermsValid(t, b.srows)
    ensures WellFormedRows(t, b.rows)
  {
    forall i, j | 0 <= i < |b.rows| && 0 <= j < |b.rows[i].edges|
      ensures b.rows[i].edges[j].to < |b.rows| && ValidTerm(t, b.rows[i].edges[j].term)
    {
      assert DetRowFor(b.rows[i], b.order[i], b.srows, b.caps, b.order);
      assert RowTermsUsed(b.srows, b.rows[i]);
      assert b.rows[i].edges[j] in b.rows[i].edges;
    }
  }

  /** Different terms of the source rows never overlap. */
  ghost predicate TermsApart(t: Tables, srows: seq<SourceRow>)
    requires Acyclic(t.models)
  {
    forall a, b :: UsedTerm(srows, a) && UsedTerm(srows, b) && a != b ==> !TermsOverlap(t, a, b)
  }

  /** Determinization keeps the language. It fails exactly when too much is reached, or when
      a set that is reached has enabled edges under two terms that overlap. */
  method CompileDeterministic(t: Tables, s: SourceTableResult, limit: nat) returns (r: Outcome<DfaRows>)
    requires Acyclic(t.models) && SourceTermsValid(t, s.rows) && SourceFits(s.rows, s.counters) && s.start < |s.rows|
    ensures r.Ok? ==>
              && r.value.start < |r.value.rows| && !r.value.rows[r.value.start].counted
              && WellFormedRows(t, r.value.rows) && UpaClean(t, r.value.rows)
              && SameLanguage(t, r.value, s)
    ensures r == Err(StateLimit) <==> TooManyConfigSets(s, limit)
    ensures r == Err(UpaViolation) <==> !TooManyConfigSets(s, limit) && TermClash(t, s)
    ensures r.Err? ==> r.error == StateLimit || r.error == UpaViolation
  {
    var caps := CounterCaps(s.rows, s.counters);
    TheseCaps(t, s, caps, limit);
    var table := new SubsetTable(s.rows, caps, limit);
    var startId := table.Explore(s.start);
    if startId.Err? {
      return Err(startId.error);
    }
    DetTable(t, s, caps, table);
    var ok := CheckCompiledRowsUpa(t, table.rows);
    if !ok {
      return Err(UpaViolation);
    }
    return Ok(DfaRows(table.rows, startId.value));
  }

  /** What the finished deterministic rows are good for. */
  lemma {:induction false} DetTable(t: Tables, s: SourceTableResult, caps: Counters, table: SubsetTable)
    requires Acyclic(t.models) && SourceTermsValid(t, s.rows) && LeastCaps(caps, s.rows, s.counters)
    requires table.Valid() && table.Working() && |table.order| == |table.rows| && table.srows == s.rows && table.caps == caps
    requires forall c :: c in table.order[0] <==> c == Config(s.start, Zeros(|caps|))
    ensures !table.rows[0].counted && WellFormedRows(t, table.rows) && SameLanguage(t, DfaRows(table.rows, 0), s)
    ensures UpaClean(t, table.rows) <==> !ConfigClash(t, s.rows, caps, {Config(s.start, Zeros(s.counters))})
  {
    var b: Subset := SubsetCase(t, s.rows, s.start, caps, table.order, table.rows, 0);
    SubsetLanguage(b, s);
    DetRowsWellFormed(t, b, table);
    assert DetRowFor(b.rows[0], b.order[0], b.srows, b.caps, b.order);
    assert Elements(table.order[0]) == {Config(s.start, Zeros(s.counters))};
    DetCleanIff(t, s.rows, caps, table.limit, table.order, table.rows);
  }

  ghost predicate SameLanguage(t: Tables, d: DfaRows, s: SourceTableResult) {
    match d case DfaRows(rows, start) =>
      forall w :: RowsAccept(t, rows, start, w) <==> SourceAccepts(t, s.rows, s.start, s.counters, w)
  }

  lemma SubsetLanguage(b: Subset, s: SourceTableResult)
    requires b.srows == s.rows && b.sstart == s.start && |b.caps| == s.counters
    ensures SameLanguage(b.t, DfaRows(b.rows, b.start), s)
  {
    forall w
      ensures RowsAccept(b.t, b.rows, b.start, w) <==> SourceAccepts(b.t, s.rows, s.start, s.counters, w)
    {
      SubsetAcceptsIff(b, w);
    }
  }

  /** Explores the finished automaton. It fails exactly when more sets of entries can be
      current than there is room for. */
  method ExploreSource(b: DfaBuilder, root: DfaNode, ghost part: BuiltPart, limit: nat)
    returns (r: Outcome<SourceTableResult>, ghost a: Automaton)
    requires b.Valid() && b.Current(part) && part.node == root && part.s.endSlot == b.counters
    modifies b`follow
    ensures Finished(a) && a.part == part
    ensures r.Ok? ==> SourceTermsValid(b.t, r.value.rows) && Recognizes(b.t, r.value, part.l) && TableOf(a, r.value)
    ensures r.Err? ==> r.error == StateLimit
    ensures r.Err? <==> TooManyEntrySets(a, limit)
  {
    assert forall e :: e in root.last ==> e in part.Frag().last;
    AddEndFollows(b, root.last);
    a := Automaton(part, b.follow);
    r := ExploreAutomaton(b.t, b.positions, b.follow, StartEntries(root), b.counters, limit, a);
  }

  method ExploreAutomaton(t: Tables, positions: seq<Particle>, follow: FollowTable, entries: seq<Entry>, counters: nat, limit: nat, ghost a: Automaton)
    returns (r: Outcome<SourceTableResult>)
    requires Finished(a) && a.part.t == t && a.part.labels == Labels(positions) && a.follow == follow
    requires entries == StartEntries(a.part.node) && counters == a.part.s.endSlot
    requires forall i :: 0 <= i < |positions| ==> ValidTerm(t, positions[i].term)
    ensures r.Ok? ==> SourceTermsValid(t, r.value.rows) && Recognizes(t, r.value, a.part.l) && TableOf(a, r.value)
    ensures r.Err? ==> r.error == StateLimit
    ensures r.Err? <==> TooManyEntrySets(a, limit)
  {
    KnownIsClosed(a);
    var table := new SourceTable(positions, follow, limit, KnownOf(a));
    var start := table.Explore(entries);
    if start.Err? {
      return Err(start.error);
    }
    FoundTermsValid(t, positions, follow, table.order, table.rows);
    r := Ok(SourceTableResult(table.rows, start.value, counters));
    ExploredLanguage(a, r.value, table.order);
    ExploredTable(a, r.value, table);
  }

  lemma ExploredLanguage(a: Automaton, s: SourceTableResult, order: seq<seq<Entry>>)
    requires Finished(a) && s.start < |order| == |s.rows| && s.counters == a.part.s.endSlot
    requires Elements(order[s.start]) == StartSet(a) && RowsFor(s.rows, a.follow, a.part.labels, order)
    ensures Recognizes(a.part.t, s, a.part.l)
  {
    var g := FinishedGraph(a.part, a.follow, order, s.rows, s.start);
    FinishedLanguage(a.part, g);
  }

  lemma ExploredTable(a: Automaton, s: SourceTableResult, table: SourceTable)
    requires table.Valid() && table.Working() && |table.rows| == |table.order| && s.rows == table.rows
    requires a.follow == table.follow && a.part.labels == Labels(table.positions) && table.known == KnownOf(a)
    requires s.start < |table.order| && table.order[0] == table.order[s.start] && s.counters == a.part.s.endSlot
    requires Elements(table.order[0]) == StartSet(a)
    ensures TableOf(a, s)
  {
    StatesDiffer(table.known, table.follow, table.limit, table.states, table.order);
    assert TableFor(a, s, table.order);
  }

  // ----- the whole path -----

  /** What compilation went through: the automaton, and its rows if they were built. */
  datatype Trace = Trace(a: Automaton, s: SourceTableResult)

  /** The automaton of a tree: it recognizes the language, and its positions are the leaves. */
  ghost predicate Traces(t: Tables, trace: Trace, l: Lang, leaves: seq<Term>, limit: nat) {
    match trace case Trace(a, s) =>
      && Finished(a) && a.part.t == t && a.part.l == l && a.part.labels == leaves
      && (!TooManyEntrySets(a, limit) ==> TableOf(a, s) && Recognizes(t, s, l))
  }

  /** Too many states, in the first stage that gets so far. */
  ghost predicate TooManyStates(t: Tables, trace: Trace, limit: nat)
    requires Acyclic(t.models)
  {
    TooManyEntrySets(trace.a, limit) || (!EntryClash(t, trace.a) && TooManyConfigSets(trace.s, limit))
  }

  /** An overlap that the first stage to find one reports. */
  ghost predicate Ambiguous(t: Tables, trace: Trace, limit: nat)
    requires Acyclic(t.models)
  {
    && !TooManyEntrySets(trace.a, limit)
    && (EntryClash(t, trace.a) || (!TooManyConfigSets(trace.s, limit) && TermClash(t, trace.s)))
  }

  /** The rows accept exactly the model's language, and each refusal has its exact cause. */
  method CompileDfa(t: Tables, id: nat, limits: seq<Uint32>, limit: nat) returns (r: Outcome<DfaRows>, ghost trace: Trace)
    requires ValidTables(t) && id < |t.models|
    ensures r.Ok? ==> Compiles(t, r.value, ScopedLang(t, t.models[id], RootScope, limits))
    ensures r == Err(UnsupportedModel) <==> !SupportedTerm(t, ModelTerm(id))
    ensures SupportedTerm(t, ModelTerm(id)) ==>
              Traces(t, trace, ScopedLang(t, t.models[id], RootScope, limits), TermLeaves(t, ModelTerm(id)), limit)
    ensures SupportedTerm(t, ModelTerm(id)) ==> (r == Err(StateLimit) <==> TooManyStates(t, trace, limit))
    ensures SupportedTerm(t, ModelTerm(id)) ==> (r == Err(UpaViolation) <==> Ambiguous(t, trace, limit))
    ensures r.Err? ==> r.error != InternalInvariant
    ensures r == Err(UpaViolation) ==> !LeavesApart(t, TermLeaves(t, ModelTerm(id)))
  {
    var b := new DfaBuilder(t, limits);
    var root, part := b.ModelNode(id, RootScope);
    if root.Err? {
      return Err(root.error), Trace(Automaton(part, b.follow), SourceTableResult([], 0, 0));
    }
    var source, a := ExploreSource(b, root.value, part, limit);
    if source.Err? {
      return Err(source.error), Trace(a, SourceTableResult([], 0, 0));
    }
    trace := Trace(a, source.value);
    r := CompileSource(t, source.value, limit, trace);
  }

  /** Checks and determinizes the rows of an automaton. */
  method CompileSource(t: Tables, s: SourceTableResult, limit: nat, ghost trace: Trace) returns (r: Outcome<DfaRows>)
    requires Acyclic(t.models) && SourceTermsValid(t, s.rows) && trace.s == s
    requires Finished(trace.a) && TableOf(trace.a, trace.s) && !TooManyEntrySets(trace.a, limit)
    requires Recognizes(t, trace.s, trace.a.part.l)
    ensures r.Ok? ==> Compiles(t, r.value, trace.a.part.l)
    ensures r == Err(StateLimit) <==> TooManyStates(t, trace, limit)
    ensures r == Err(UpaViolation) <==> Ambiguous(t, trace, limit)
    ensures r.Err? ==> r.error == StateLimit || r.error == UpaViolation
    ensures r == Err(UpaViolation) ==> !LeavesApart(t, trace.a.part.labels)
  {
    ghost var order :| TableFor(trace.a, trace.s, order);
    TableFits(trace.a, trace.s, order);
    SourceCleanIff(t, trace.a, trace.s, order);
    if LeavesApart(t, trace.a.part.labels) {
      ApartNoClash(t, trace, order);
    }
    var ok := CheckSourceUpa(t, s.rows);
    if !ok {
      return Err(UpaViolation);
    }
    r := CompileDeterministic(t, s, limit);
  }

  /** Leaves that do not overlap never clash, at either stage. */
  lemma ApartNoClash(t: Tables, trace: Trace, order: seq<seq<Entry>>)
    requires Acyclic(t.models) && TableFor(trace.a, trace.s, order) && LeavesApart(t, trace.a.part.labels)
    ensures SourceClean(t, trace.s.rows) && !TermClash(t, trace.s)
  {
    ApartSourceClean(t, trace.a.part.labels, trace.a.follow, order, trace.s.rows);
    if TermClash(t, trace.s) {
      var caps :| LeastCaps(caps, trace.s.rows, trace.s.counters)
                  && ConfigClash(t, trace.s.rows, caps, {Config(trace.s.start, Zeros(trace.s.counters))});
      var s, x, y :| MeetIn(t, trace.s.rows, caps, {Config(trace.s.start, Zeros(trace.s.counters))}, s, x, y);
      LeadsUsed(trace.s.rows, caps, s, x);
      LeadsUsed(trace.s.rows, caps, s, y);
      LexTotal(TermKey(x), TermKey(x));
    }
  }

  lemma LeadsUsed(srows: seq<SourceRow>, caps: Counters, s: set<Config>, x: Term)
    requires Leads(srows, caps, s, x)
    ensures UsedTerm(srows, x)
  {
    var to :| MovesFrom(srows, caps, s, x, to);
    var from, e :| from in s && Moves(srows, caps, from, e, to) && e.term == x;
  }
}
