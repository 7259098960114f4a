/** The position automaton as a table of rows: one row per set of entries that can
    be current, with the positions' follow sets shared through a state table. */
module SourceRows {
  import opened Schema
  import opened Languages
  import opened PositionAutomaton
  import opened PositionBuilder

  const END_POS := -1

  datatype SourceEdge = SourceEdge(pos: nat, term: Term, guards: seq<Guard>, actions: seq<Action>, to: nat)

  datatype SourceRow = SourceRow(edges: seq<SourceEdge>, accept: seq<seq<Guard>>)

  function FollowAt(follow: FollowTable, p: int): seq<Entry> {
    if p in follow then follow[p] else []
  }

  // ----- running the rows -----

  ghost predicate SourceStep(t: Tables, rows: seq<SourceRow>, s: nat, d: Counters, e: SourceEdge, x: Input, to: nat, c: Counters) {
    && s < |rows| && e in rows[s].edges && e.to == to
    && TermMatches(t, e.term, x) && Enabled(d, e.guards) && c == Apply(d, e.actions)
  }

  ghost predicate SourceReach(t: Tables, rows: seq<SourceRow>, start: nat, k: nat, w: Word, s: nat, c: Counters)
    decreases |w|, 0
  {
    if w == [] then s == start && c == Zeros(k)
    else SourceReachThen(t, rows, start, k, w[..|w| - 1], w[|w| - 1], s, c)
  }

  ghost predicate SourceReachThen(t: Tables, rows: seq<SourceRow>, start: nat, k: nat, u: Word, x: Input, s: nat, c: Counters)
    decreases |u|, 1
  {
    exists r, d, e :: SourceReach(t, rows, start, k, u, r, d) && SourceStep(t, rows, r, d, e, x, s, c)
  }

  function Zeros(k: nat): (c: Counters)
    ensures |c| == k && forall i :: 0 <= i < k ==> c[i] == 0
  {
    seq(k, _ => 0)
  }

  ghost predicate SourceEnds(rows: seq<SourceRow>, s: nat, c: Counters) {
    s < |rows| && exists g :: g in rows[s].accept && Enabled(c, g)
  }

  ghost predicate SourceAccepts(t: Tables, rows: seq<SourceRow>, start: nat, k: nat, w: Word) {
    exists s, c :: SourceReach(t, rows, start, k, w, s, c) && SourceEnds(rows, s, c)
  }

  // ----- what a finished table has to do with the fragment -----

  /** The row lists exactly the entries it stands for. `order` names the entry set
      of every state. */
  ghost predicate RowFor(row: SourceRow, entries: seq<Entry>, follow: FollowTable, labels: seq<Term>, order: seq<seq<Entry>>) {
    match row case SourceRow(edges, accept) =>
      && (forall g :: g in accept <==> exists e :: e in entries && e.pos == END_POS && e.guards == g)
      && (forall d :: d in edges ==>
            && d.pos < |labels| && d.term == labels[d.pos]
            && Entry(d.pos, d.guards, d.actions) in entries
            && d.to < |order| && Elements(order[d.to]) == Elements(FollowAt(follow, d.pos)))
      && (forall e :: e in entries && e.pos != END_POS ==>
            exists d :: d in edges && Entry(d.pos, d.guards, d.actions) == e)
  }

  ghost predicate StartsLike(entries: seq<Entry>, f: Fragment) {
    && (forall e :: e in entries && e.pos != END_POS <==> e in f.first)
    && (forall e :: e in entries && e.pos == END_POS ==> e.guards == [])
    && (f.nullable <==> exists e :: e in entries && e.pos == END_POS)
  }

  ghost predicate FollowsLike(follow: FollowTable, p: int, f: Fragment) {
    && (forall e :: e in FollowAt(follow, p) && e.pos != END_POS <==> Edge(p, e) in f.edges)
    && (forall e :: e in FollowAt(follow, p) && e.pos == END_POS ==>
          exists last :: last in f.last && last.pos == p && last.guards == e.guards)
    && (forall last :: last in f.last && last.pos == p ==>
          exists e :: e in FollowAt(follow, p) && e.pos == END_POS && last.guards == e.guards)
  }

  datatype GraphCase = GraphCase(
    t: Tables, labels: seq<Term>, f: Fragment, live: set<int>, follow: FollowTable,
    order: seq<seq<Entry>>, rows: seq<SourceRow>, start: nat, k: nat)

  ghost predicate Explored(g: GraphCase) {
    && g.start < |g.order| == |g.rows|
    && PositionsIn(g.f, g.live)
    && (forall p :: p in g.live ==> 0 <= p < |g.labels| && FollowsLike(g.follow, p, g.f))
    && (forall e :: e in g.f.first ==> Plain(e))
    && StartsLike(g.order[g.start], g.f)
    && (forall i :: 0 <= i < |g.rows| ==> RowFor(g.rows[i], g.order[i], g.follow, g.labels, g.order))
  }

  type Graph = g: GraphCase | Explored(g) ghost witness GraphWitness()

  ghost function GraphWitness(): (g: GraphCase)
    ensures Explored(g)
  {
    GraphCase(Tables([], [], [], map[], []), [], NothingFragment(), {}, map[], [[]], [SourceRow([], [])], 0, 0)
  }

  /** State s stands for being at position p. */
  ghost predicate StandsFor(g: Graph, s: nat, p: int) {
    s < |g.order| && p in g.live && Elements(g.order[s]) == Elements(FollowAt(g.follow, p))
  }

  lemma RowEdgeOf(g: Graph, s: nat, e: Entry) returns (d: SourceEdge)
    requires s < |g.rows| && e in g.order[s] && e.pos != END_POS
    ensures d in g.rows[s].edges && Entry(d.pos, d.guards, d.actions) == e
    ensures d.pos < |g.labels| && d.term == g.labels[d.pos]
    ensures d.to < |g.order| && Elements(g.order[d.to]) == Elements(FollowAt(g.follow, d.pos))
  {
    assert RowFor(g.rows[s], g.order[s], g.follow, g.labels, g.order);
    d :| d in g.rows[s].edges && Entry(d.pos, d.guards, d.actions) == e;
  }

  lemma InElements(xs: seq<Entry>, ys: seq<Entry>, e: Entry)
    requires Elements(xs) == Elements(ys)
    ensures e in xs <==> e in ys
  {
    assert e in xs <==> e in Elements(xs);
    assert e in ys <==> e in Elements(ys);
  }

  lemma EntryOfEdge(g: Graph, r: nat, e: SourceEdge)
    requires r < |g.rows| && e in g.rows[r].edges
    ensures Entry(e.pos, e.guards, e.actions) in g.order[r]
    ensures e.pos < |g.labels| && e.term == g.labels[e.pos]
    ensures e.to < |g.order| && Elements(g.order[e.to]) == Elements(FollowAt(g.follow, e.pos))
  {
    assert RowFor(g.rows[r], g.order[r], g.follow, g.labels, g.order);
  }

  lemma FirstStepSound(g: Graph, e: SourceEdge, x: Input)
    requires e in g.rows[g.start].edges && TermMatches(g.t, e.term, x)
    ensures StandsFor(g, e.to, e.pos) && Starts(g.f, e.pos) && Hits(g.t, g.labels, e.pos, x)
    ensures e.actions == []
  {
    EntryOfEdge(g, g.start, e);
    var entry := Entry(e.pos, e.guards, e.actions);
    assert entry in g.f.first;
  }

  lemma NextStepSound(g: Graph, r: nat, q: int, d: Counters, e: SourceEdge, x: Input, c: Counters)
    requires StandsFor(g, r, q) && SourceStep(g.t, g.rows, r, d, e, x, e.to, c)
    ensures StandsFor(g, e.to, e.pos) && Hits(g.t, g.labels, e.pos, x)
    ensures Step(g.f, q, d, Entry(e.pos, e.guards, e.actions), e.pos, c)
  {
    EntryOfEdge(g, r, e);
    var entry := Entry(e.pos, e.guards, e.actions);
    InElements(g.order[r], FollowAt(g.follow, q), entry);
    assert FollowsLike(g.follow, q, g.f);
    assert Edge(q, entry) in g.f.edges;
  }

  lemma {:induction false} SourceReachSound(g: Graph, w: Word, s: nat, c: Counters) returns (p: int)
    requires w != [] && SourceReach(g.t, g.rows, g.start, g.k, w, s, c)
    ensures Reach(g.t, g.labels, g.f, Zeros(g.k), w, p, c) && StandsFor(g, s, p)
    decreases |w|
  {
    var n := |w| - 1;
    assert SourceReachThen(g.t, g.rows, g.start, g.k, w[..n], w[n], s, c);
    var r: nat, d, e :| SourceReach(g.t, g.rows, g.start, g.k, w[..n], r, d) && SourceStep(g.t, g.rows, r, d, e, w[n], s, c);
    p := e.pos;
    if n == 0 {
      FirstStepSound(g, e, w[n]);
    } else {
      var q := SourceReachSound(g, w[..n], r, d);
      NextStepSound(g, r, q, d, e, w[n], c);
    }
  }

  lemma {:induction false} SourceReachComplete(g: Graph, w: Word, p: int, c: Counters) returns (s: nat)
    requires Reach(g.t, g.labels, g.f, Zeros(g.k), w, p, c)
    ensures SourceReach(g.t, g.rows, g.start, g.k, w, s, c) && StandsFor(g, s, p)
    decreases |w|
  {
    var n := |w| - 1;
    if n == 0 {
      var entry :| entry in g.f.first && entry.pos == p;
      var e := RowEdgeOf(g, g.start, entry);
      s := e.to;
      assert w[..0] == [];
      assert SourceReach(g.t, g.rows, g.start, g.k, w[..0], g.start, Zeros(g.k));
      assert SourceStep(g.t, g.rows, g.start, Zeros(g.k), e, w[0], s, c);
      assert SourceReachThen(g.t, g.rows, g.start, g.k, w[..n], w[n], s, c);
    } else {
      var q, d, entry :| Reach(g.t, g.labels, g.f, Zeros(g.k), w[..n], q, d) && Step(g.f, q, d, entry, p, c);
      var r := SourceReachComplete(g, w[..n], q, d);
      assert FollowsLike(g.follow, q, g.f);
      InElements(g.order[r], FollowAt(g.follow, q), entry);
      var e := RowEdgeOf(g, r, entry);
      s := e.to;
      assert SourceStep(g.t, g.rows, r, d, e, w[n], s, c);
      assert SourceReachThen(g.t, g.rows, g.start, g.k, w[..n], w[n], s, c);
    }
  }

  lemma {:induction false} EndsAgree(g: Graph, s: nat, p: int, c: Counters)
    requires StandsFor(g, s, p)
    ensures SourceEnds(g.rows, s, c) <==> Ends(g.f, p, c)
  {
    assert RowFor(g.rows[s], g.order[s], g.follow, g.labels, g.order);
    if SourceEnds(g.rows, s, c) {
      var guards :| guards in g.rows[s].accept && Enabled(c, guards);
      var e :| e in g.order[s] && e.pos == END_POS && e.guards == guards;
      InElements(g.order[s], FollowAt(g.follow, p), e);
      assert FollowsLike(g.follow, p, g.f);
    }
    if Ends(g.f, p, c) {
      var last :| last in g.f.last && last.pos == p && Enabled(c, last.guards);
      var e := EndEntryOf(g, p, last);
      InElements(g.order[s], FollowAt(g.follow, p), e);
      assert e.guards in g.rows[s].accept;
    }
  }

  lemma EndEntryOf(g: Graph, p: int, last: Entry) returns (e: Entry)
    requires p in g.live && last in g.f.last && last.pos == p
    ensures e in FollowAt(g.follow, p) && e.pos == END_POS && last.guards == e.guards
  {
    assert FollowsLike(g.follow, p, g.f);
    e :| e in FollowAt(g.follow, p) && e.pos == END_POS && last.guards == e.guards;
  }

  /** The rows accept what the fragment accepts from zeroed counters. */
  lemma {:induction false} SourceAcceptsIff(g: Graph, w: Word)
    ensures SourceAccepts(g.t, g.rows, g.start, g.k, w) <==>
            if w == [] then g.f.nullable else Accepts(g.t, g.labels, g.f, Zeros(g.k), w)
  {
    if w == [] {
      assert RowFor(g.rows[g.start], g.order[g.start], g.follow, g.labels, g.order);
      if g.f.nullable {
        var e :| e in g.order[g.start] && e.pos == END_POS;
        assert e.guards in g.rows[g.start].accept && Enabled(Zeros(g.k), e.guards);
        assert SourceReach(g.t, g.rows, g.start, g.k, w, g.start, Zeros(g.k));
        assert SourceEnds(g.rows, g.start, Zeros(g.k));
      }
    } else {
      if SourceAccepts(g.t, g.rows, g.start, g.k, w) {
        var s, c :| SourceReach(g.t, g.rows, g.start, g.k, w, s, c) && SourceEnds(g.rows, s, c);
        var p := SourceReachSound(g, w, s, c);
        EndsAgree(g, s, p, c);
      }
      if Accepts(g.t, g.labels, g.f, Zeros(g.k), w) {
        var p, c :| Reach(g.t, g.labels, g.f, Zeros(g.k), w, p, c) && Ends(g.f, p, c);
        var s := SourceReachComplete(g, w, p, c);
        EndsAgree(g, s, p, c);
      }
    }
  }
}
