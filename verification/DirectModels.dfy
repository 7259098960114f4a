/** Direct compilation of a sequence or choice of elements and wildcards, without
    an automaton: one row per particle, with the count kept at run time. */
module DirectModels {
  import opened Schema
  import opened Languages
  import opened ContentLanguage
  import opened Normal
  import opened PositionBuilder
  import opened CompiledRows
  import opened AutomatonRepeat
  import opened CountedRows
  import opened Overlap
  import opened DfaCompilers
  import opened StateSpaces

  method AppendRow(rows: seq<Row>, row: Row, limit: nat) returns (r: Outcome<seq<Row>>)
    ensures r.Ok? ==> r.value == rows + [row]
    ensures r.Err? <==> |rows| >= Room(limit)
    ensures r.Err? ==> r.error == StateLimit
  {
    if |rows| > MAX_UINT32 {
      return Err(StateLimit);
    }
    if |rows| >= limit {
      return Err(StateLimit);
    }
    return Ok(rows + [row]);
  }

  function AddEdge(row: Row, e: RowEdge): Row {
    row.(edges := row.edges + [e])
  }

  /** Adds one edge to each active row. */
  method AddToActive(rows: seq<Row>, active: seq<nat>, e: RowEdge) returns (r: seq<Row>)
    requires forall s :: s in active ==> s < |rows|
    requires forall i, j :: 0 <= i < j < |active| ==> active[i] != active[j]
    ensures |r| == |rows|
    ensures forall s :: 0 <= s < |rows| ==> r[s] == if s in active then AddEdge(rows[s], e) else rows[s]
  {
    r := rows;
    for i := 0 to |active|
      invariant |r| == |rows|
      invariant forall s :: 0 <= s < |rows| ==> r[s] == if s in active[..i] then AddEdge(rows[s], e) else rows[s]
    {
      assert active[..i + 1] == active[..i] + [active[i]];
      assert active[i] in active && active[i] !in active[..i];
      r := r[active[i] := AddEdge(r[active[i]], e)];
    }
    assert active[..|active|] == active;
  }

  /** The new row and the edges into it. */
  method GrowRows(t: Tables, rows: seq<Row>, active: seq<nat>, term: Term, o: Occurrence, accept: bool, limit: nat)
    returns (r: Outcome<seq<Row>>)
    requires |rows| > 0 && WellFormedRows(t, rows) && o.Valid() && !o.IsZero() && ValidTerm(t, term)
    requires forall s :: s in active ==> s < |rows|
    requires forall i, j :: 0 <= i < j < |active| ==> active[i] != active[j]
    ensures r.Ok? ==>
              && Grown(GrowCase(t, rows, active, term, o, r.value)) && WellFormedRows(t, r.value)
              && r.value[|rows|].accept == accept
              && forall s :: 0 <= s < |rows| ==> r.value[s].accept == rows[s].accept
    ensures r.Err? ==> r.error == StateLimit
    ensures r.Err? <==> |rows| >= Room(limit)
  {
    var to := |rows|;
    var edge := RowEdge(term, to);
    r := AppendRow(rows, ParticleRow(term, o, accept), limit);
    if r.Err? { return; }
    var grown := AddToActive(r.value, active, edge);
    if Loops(o) {
      grown := grown[to := AddEdge(grown[to], edge)];
    }
    GrownWellFormed(t, rows, grown, edge);
    return Ok(grown);
  }

  lemma GrownWellFormed(t: Tables, rows: seq<Row>, rows': seq<Row>, edge: RowEdge)
    requires WellFormedRows(t, rows) && |rows'| == |rows| + 1 && edge.to == |rows| && ValidTerm(t, edge.term)
    requires forall s :: 0 <= s < |rows| ==> rows'[s].edges == rows[s].edges || rows'[s].edges == rows[s].edges + [edge]
    requires rows'[|rows|].edges == [] || rows'[|rows|].edges == [edge]
    ensures WellFormedRows(t, rows')
  {
    forall i, j | 0 <= i < |rows'| && 0 <= j < |rows'[i].edges|
      ensures rows'[i].edges[j].to < |rows'| && ValidTerm(t, rows'[i].edges[j].term)
    {
      if i < |rows| && j < |rows[i].edges| {
        assert rows'[i].edges[j] == rows[i].edges[j];
      } else {
        assert rows'[i].edges[j] == edge;
      }
    }
  }

  /** The rows built for the first particles of a sequence. */
  ghost predicate Prefix(t: Tables, rows: seq<Row>, active: seq<nat>, l: Lang) {
    && |rows| > 0 && !rows[0].counted && WellFormedRows(t, rows)
    && (forall s :: s in active ==> s < |rows|)
    && (forall i, j :: 0 <= i < j < |active| ==> active[i] != active[j])
    && (forall s :: 0 <= s < |rows| ==> !rows[s].accept)
    && ReadyLang(t, rows, active) == l
  }

  function SlotsSorted(xs: seq<nat>): (r: seq<nat>)
    ensures forall y :: y in r <==> y in xs
    ensures forall i, j :: 0 <= i < j < |r| ==> r[i] != r[j]
  {
    NormalizeSorted(SlotKey, xs);
    Distinct(SlotKey, Normalize(SlotKey, xs));
    Normalize(SlotKey, xs)
  }

  method SequenceParticle(t: Tables, rows: seq<Row>, active: seq<nat>, p: Particle, limit: nat, ghost l: Lang)
    returns (r: Outcome<seq<Row>>, active': seq<nat>)
    requires Prefix(t, rows, active, l) && p.occurs.Valid() && ValidTerm(t, p.term)
    ensures r.Ok? ==> Prefix(t, r.value, active', Cat(l, Rep(LeafLang(t, p.term), p.occurs)))
    ensures r.Ok? ==> GrownBy(rows, active, p, r.value)
    ensures forall s :: s in active' <==> (p.occurs.min == 0 && s in active) || (!p.occurs.IsZero() && s == |rows|)
    ensures r.Err? ==> r.error == StateLimit
    ensures r.Err? <==> !p.occurs.IsZero() && |rows| >= Room(limit)
  {
    active' := active;
    if p.occurs.IsZero() {
      ZeroGrown(rows, active, p, rows);
      RepZero(LeafLang(t, p.term), p.occurs);
      CatEpsilon(l);
      return Ok(rows), active;
    }
    var to := |rows|;
    active' := [to];
    if !p.occurs.IsExactlyOne() && p.occurs.min == 0 {
      active' := SlotsSorted([to] + active);
    }
    r := GrowRows(t, rows, active, p.term, p.occurs, false, limit);
    if r.Err? { return; }
    GrownLang(GrowCase(t, rows, active, p.term, p.occurs, r.value), active');
    GrowthIsGrown(GrowCase(t, rows, active, p.term, p.occurs, r.value), p);
  }

  // ----- which particle an edge belongs to -----

  /** A particle that may occur gets a row of its own, entered from the active rows. */
  ghost predicate GrownBy(rows: seq<Row>, active: seq<nat>, p: Particle, rows': seq<Row>) {
    match p case Particle(term, o) =>
      var edge := RowEdge(term, |rows|);
      && |rows'| == (if o.IsZero() then |rows| else |rows| + 1)
      && (forall s :: 0 <= s < |rows| ==> SameCount(rows[s], rows'[s]))
      && (forall s :: 0 <= s < |rows| ==>
            rows'[s].edges == if !o.IsZero() && s in active then rows[s].edges + [edge] else rows[s].edges)
      && (!o.IsZero() ==>
            && SameCount(rows'[|rows|], ParticleRow(term, o, false))
            && rows'[|rows|].edges == if Loops(o) then [edge] else [])
  }

  lemma ZeroGrown(rows: seq<Row>, active: seq<nat>, p: Particle, rows': seq<Row>)
    requires p.occurs.IsZero() && |rows'| == |rows| && forall s :: 0 <= s < |rows| ==> SameMoves(rows[s], rows'[s])
    ensures GrownBy(rows, active, p, rows')
  {
  }

  lemma GrowthIsGrown(g: Growth, p: Particle)
    requires g.term == p.term && g.o == p.occurs
    ensures GrownBy(g.rows, g.active, p, g.rows')
  {
  }

  /** These particles may all be absent. */
  predicate Skippable(ps: seq<Particle>, a: nat, b: nat) {
    forall k :: a <= k < b && k < |ps| ==> ps[k].occurs.min == 0
  }

  /** The particles after a row's own begin here. */
  function After(owner: seq<nat>, s: nat): nat {
    if 0 < s < |owner| then owner[s] + 1 else 0
  }

  /** A row that particle n is entered from: in a sequence, when everything in between may
      be absent; in a choice, the start. */
  predicate ActiveRow(kind: ModelKind, ps: seq<Particle>, owner: seq<nat>, s: nat, n: nat) {
    if kind.Sequence? then Skippable(ps, After(owner, s), n) else s == 0
  }

  predicate Links(kind: ModelKind, ps: seq<Particle>, owner: seq<nat>, s: nat, to: nat) {
    && s <= to && 0 < to < |owner| && owner[to] < |ps|
    && if s == to then Loops(ps[owner[to]].occurs) else ActiveRow(kind, ps, owner, s, owner[to])
  }

  predicate EdgeRight(kind: ModelKind, ps: seq<Particle>, owner: seq<nat>, s: nat, e: RowEdge) {
    Links(kind, ps, owner, s, e.to) && e.term == ps[owner[e.to]].term
  }

  predicate HasEdge(row: Row, to: nat) {
    exists j :: 0 <= j < |row.edges| && row.edges[j].to == to
  }

  predicate EdgesAscend(row: Row) {
    forall i, j :: 0 <= i < j < |row.edges| ==> row.edges[i].to < row.edges[j].to
  }

  ghost predicate CountRight(ps: seq<Particle>, owner: seq<nat>, s: nat, row: Row) {
    if 0 < s < |owner| && owner[s] < |ps| then SameCount(row, ParticleRow(ps[owner[s]].term, ps[owner[s]].occurs, false))
    else !row.counted
  }

  /** `owner` lists the particles that may occur, in order, after a place for the start. */
  ghost predicate Owners(ps: seq<Particle>, n: nat, owner: seq<nat>) {
    match ps case _ =>
      && |owner| > 0 && n <= |ps|
      && (forall r :: 0 < r < |owner| ==> owner[r] < n && !ps[owner[r]].occurs.IsZero())
      && (forall r, q :: 0 < r < q < |owner| ==> owner[r] < owner[q])
      && (forall k: nat :: k < n && !ps[k].occurs.IsZero() ==> OwnedBy(owner, k))
  }

  predicate OwnedBy(owner: seq<nat>, k: nat) {
    exists r :: 0 < r < |owner| && owner[r] == k
  }

  /** The rows for the first n particles, edge by edge. */
  ghost predicate Shape(kind: ModelKind, ps: seq<Particle>, n: nat, rows: seq<Row>, owner: seq<nat>) {
    match kind case _ =>
      && Owners(ps, n, owner) && |rows| == |owner|
      && (forall s: nat, j :: s < |rows| && 0 <= j < |rows[s].edges| ==> EdgeRight(kind, ps, owner, s, rows[s].edges[j]))
      && (forall s: nat, to: nat :: s < |rows| && Links(kind, ps, owner, s, to) ==> HasEdge(rows[s], to))
      && (forall s :: 0 <= s < |rows| ==> EdgesAscend(rows[s]))
      && (forall s: nat :: s < |rows| ==> CountRight(ps, owner, s, rows[s]))
  }

  function NextOwner(ps: seq<Particle>, n: nat, owner: seq<nat>): seq<nat>
    requires n < |ps|
  {
    if ps[n].occurs.IsZero() then owner else owner + [n]
  }

  lemma OwnersGrow(ps: seq<Particle>, n: nat, owner: seq<nat>)
    requires Owners(ps, n, owner) && n < |ps|
    ensures Owners(ps, n + 1, NextOwner(ps, n, owner))
  {
    var owner' := NextOwner(ps, n, owner);
    forall k: nat | k < n + 1 && !ps[k].occurs.IsZero()
      ensures OwnedBy(owner', k)
    {
      if k < n {
        assert OwnedBy(owner, k);
        var r :| 0 < r < |owner| && owner[r] == k;
        assert owner'[r] == k;
      } else {
        assert owner'[|owner|] == k;
      }
    }
  }

  /** Links between old rows stay; the new row is linked from the active ones. */
  lemma LinksGrow(kind: ModelKind, ps: seq<Particle>, n: nat, owner: seq<nat>, s: nat, to: nat)
    requires Owners(ps, n, owner) && n < |ps| && s <= |owner|
    ensures var owner' := NextOwner(ps, n, owner);
            Links(kind, ps, owner', s, to) <==>
            if to < |owner| then Links(kind, ps, owner, s, to)
            else to < |owner'| && (if s == to then Loops(ps[n].occurs) else ActiveRow(kind, ps, owner, s, n))
  {
    var owner' := NextOwner(ps, n, owner);
    if s < |owner| {
      assert After(owner', s) == After(owner, s);
    }
  }

  lemma ShapeGrows(kind: ModelKind, ps: seq<Particle>, n: nat, rows: seq<Row>, owner: seq<nat>, active: seq<nat>, rows': seq<Row>)
    requires Shape(kind, ps, n, rows, owner) && n < |ps| && GrownBy(rows, active, ps[n], rows')
    requires forall s: nat :: s < |rows| ==> (s in active <==> ActiveRow(kind, ps, owner, s, n))
    ensures Shape(kind, ps, n + 1, rows', NextOwner(ps, n, owner))
  {
    var owner' := NextOwner(ps, n, owner);
    OwnersGrow(ps, n, owner);
    forall s: nat | s < |rows'|
      ensures RowRight(kind, ps, owner', s, rows'[s])
    {
      if s < |rows| {
        assert RowRight(kind, ps, owner, s, rows[s]);
        OldRowRight(kind, ps, n, owner, s, rows[s], rows'[s]);
      } else {
        NewRowRight(kind, ps, n, owner, rows'[s]);
      }
    }
    forall s: nat, j | s < |rows'| && 0 <= j < |rows'[s].edges|
      ensures EdgeRight(kind, ps, owner', s, rows'[s].edges[j])
    {
      assert RowRight(kind, ps, owner', s, rows'[s]);
    }
    forall s: nat, to: nat | s < |rows'| && Links(kind, ps, owner', s, to)
      ensures HasEdge(rows'[s], to)
    {
      assert RowRight(kind, ps, owner', s, rows'[s]);
    }
    forall s: nat | s < |rows'|
      ensures EdgesAscend(rows'[s]) && CountRight(ps, owner', s, rows'[s])
    {
      assert RowRight(kind, ps, owner', s, rows'[s]);
    }
  }

  ghost predicate RowRight(kind: ModelKind, ps: seq<Particle>, owner: seq<nat>, s: nat, row: Row) {
    match row case _ =>
      && (forall j :: 0 <= j < |row.edges| ==> EdgeRight(kind, ps, owner, s, row.edges[j]))
      && (forall to: nat :: Links(kind, ps, owner, s, to) ==> HasEdge(row, to))
      && EdgesAscend(row) && CountRight(ps, owner, s, row)
  }

  lemma OldRowRight(kind: ModelKind, ps: seq<Particle>, n: nat, owner: seq<nat>, s: nat, row: Row, row': Row)
    requires Owners(ps, n, owner) && n < |ps| && s < |owner| && RowRight(kind, ps, owner, s, row) && SameCount(row, row')
    requires row'.edges == if !ps[n].occurs.IsZero() && ActiveRow(kind, ps, owner, s, n)
                           then row.edges + [RowEdge(ps[n].term, |owner|)] else row.edges
    ensures RowRight(kind, ps, NextOwner(ps, n, owner), s, row')
  {
    OldRowEdges(kind, ps, n, owner, s, row, row');
    OldRowAscends(kind, ps, n, owner, s, row, row');
    OldRowLinks(kind, ps, n, owner, s, row, row');
  }

  lemma OldRowEdges(kind: ModelKind, ps: seq<Particle>, n: nat, owner: seq<nat>, s: nat, row: Row, row': Row)
    requires Owners(ps, n, owner) && n < |ps| && s < |owner|
    requires forall j :: 0 <= j < |row.edges| ==> EdgeRight(kind, ps, owner, s, row.edges[j])
    requires row'.edges == if !ps[n].occurs.IsZero() && ActiveRow(kind, ps, owner, s, n)
                           then row.edges + [RowEdge(ps[n].term, |owner|)] else row.edges
    ensures forall j :: 0 <= j < |row'.edges| ==> EdgeRight(kind, ps, NextOwner(ps, n, owner), s, row'.edges[j])
  {
    forall j | 0 <= j < |row'.edges|
      ensures EdgeRight(kind, ps, NextOwner(ps, n, owner), s, row'.edges[j])
    {
      LinksGrow(kind, ps, n, owner, s, row'.edges[j].to);
      if j < |row.edges| {
        assert EdgeRight(kind, ps, owner, s, row.edges[j]);
      }
    }
  }

  lemma OldRowAscends(kind: ModelKind, ps: seq<Particle>, n: nat, owner: seq<nat>, s: nat, row: Row, row': Row)
    requires n < |ps| && EdgesAscend(row) && forall j :: 0 <= j < |row.edges| ==> EdgeRight(kind, ps, owner, s, row.edges[j])
    requires row'.edges == row.edges || row'.edges == row.edges + [RowEdge(ps[n].term, |owner|)]
    ensures EdgesAscend(row')
  {
    forall i, j | 0 <= i < j < |row'.edges|
      ensures row'.edges[i].to < row'.edges[j].to
    {
      assert EdgeRight(kind, ps, owner, s, row.edges[i]);
    }
  }

  lemma OldRowLinks(kind: ModelKind, ps: seq<Particle>, n: nat, owner: seq<nat>, s: nat, row: Row, row': Row)
    requires Owners(ps, n, owner) && n < |ps| && s < |owner|
    requires forall to: nat :: Links(kind, ps, owner, s, to) ==> HasEdge(row, to)
    requires row'.edges == if !ps[n].occurs.IsZero() && ActiveRow(kind, ps, owner, s, n)
                           then row.edges + [RowEdge(ps[n].term, |owner|)] else row.edges
    ensures forall to: nat :: Links(kind, ps, NextOwner(ps, n, owner), s, to) ==> HasEdge(row', to)
  {
    forall to: nat | Links(kind, ps, NextOwner(ps, n, owner), s, to)
      ensures HasEdge(row', to)
    {
      LinksGrow(kind, ps, n, owner, s, to);
      if to < |owner| {
        assert HasEdge(row, to);
        var j :| 0 <= j < |row.edges| && row.edges[j].to == to;
        assert row'.edges[j].to == to;
      } else {
        assert row'.edges[|row.edges|].to == to;
      }
    }
  }

  lemma NewRowRight(kind: ModelKind, ps: seq<Particle>, n: nat, owner: seq<nat>, row: Row)
    requires Owners(ps, n, owner) && n < |ps| && !ps[n].occurs.IsZero()
    requires SameCount(row, ParticleRow(ps[n].term, ps[n].occurs, false))
    requires row.edges == if Loops(ps[n].occurs) then [RowEdge(ps[n].term, |owner|)] else []
    ensures RowRight(kind, ps, owner + [n], |owner|, row)
  {
    var owner' := owner + [n];
    forall to: nat | Links(kind, ps, owner', |owner|, to)
      ensures HasEdge(row, to)
    {
      assert to == |owner| && row.edges[0].to == to;
    }
  }

  /** The start row alone. */
  lemma StartShape(kind: ModelKind, ps: seq<Particle>)
    ensures Shape(kind, ps, 0, [PLAIN_ROW], [0])
  {
  }

  // ----- when flat particles are ambiguous -----

  /** It may occur more or less often than some other number of times. */
  predicate VariableCount(o: Occurrence) {
    o.unbounded || o.min != o.max
  }

  /** Two particles that may occur and overlap, in a sequence so that the first may end
      before the second, with nothing required in between. */
  predicate Competes(t: Tables, kind: ModelKind, ps: seq<Particle>, i: nat, j: nat)
    requires Acyclic(t.models)
  {
    && i < j < |ps| && !ps[i].occurs.IsZero() && !ps[j].occurs.IsZero() && TermsOverlap(t, ps[i].term, ps[j].term)
    && (kind.Sequence? ==> VariableCount(ps[i].occurs) && Skippable(ps, i + 1, j))
  }

  ghost predicate FlatAmbiguous(t: Tables, kind: ModelKind, ps: seq<Particle>)
    requires Acyclic(t.models)
  {
    exists i: nat, j: nat :: Competes(t, kind, ps, i, j)
  }

  lemma ClashCompetes(t: Tables, kind: ModelKind, ps: seq<Particle>, rows: seq<Row>, owner: seq<nat>, s: nat, a: RowEdge, b: RowEdge)
    requires Acyclic(t.models) && Owners(ps, |ps|, owner) && s < |owner| && s < |rows| && CountRight(ps, owner, s, rows[s])
    requires forall k :: 0 <= k < |ps| ==> ps[k].occurs.Valid()
    requires EdgeRight(kind, ps, owner, s, a) && EdgeRight(kind, ps, owner, s, b) && a.to < b.to
    requires TermsOverlap(t, a.term, b.term) && !CountingException(s, rows[s], a, b)
    ensures Competes(t, kind, ps, owner[a.to], owner[b.to])
  {
    var i, j := owner[a.to], owner[b.to];
    if kind.Sequence? && s < a.to {
      assert After(owner, s) <= i;
      assert ps[i].occurs.min == 0;
    }
  }

  lemma EdgeTo(kind: ModelKind, ps: seq<Particle>, owner: seq<nat>, rows: seq<Row>, s: nat, to: nat) returns (j: nat)
    requires Shape(kind, ps, |ps|, rows, owner) && s < |rows| && Links(kind, ps, owner, s, to)
    ensures j < |rows[s].edges| && rows[s].edges[j] == RowEdge(ps[owner[to]].term, to)
  {
    assert HasEdge(rows[s], to);
    j :| 0 <= j < |rows[s].edges| && rows[s].edges[j].to == to;
    assert EdgeRight(kind, ps, owner, s, rows[s].edges[j]);
  }

  /** The row from which both of two competing particles are entered. */
  lemma MeetingRow(t: Tables, kind: ModelKind, ps: seq<Particle>, owner: seq<nat>, a: nat, b: nat) returns (s: nat)
    requires Acyclic(t.models) && Owners(ps, |ps|, owner) && 0 < a < b < |owner| && Competes(t, kind, ps, owner[a], owner[b])
    requires forall k :: 0 <= k < |ps| ==> ps[k].occurs.Valid()
    ensures s <= a && Links(kind, ps, owner, s, a) && Links(kind, ps, owner, s, b)
    ensures s == a ==> kind.Sequence? && VariableCount(ps[owner[a]].occurs)
  {
    if !kind.Sequence? {
      s := 0;
    } else if Loops(ps[owner[a]].occurs) {
      s := a;
    } else {
      s := a - 1;
      forall k: nat | After(owner, s) <= k < owner[a]
        ensures ps[k].occurs.IsZero()
      {
        assert ps[k].occurs.IsZero() || OwnedBy(owner, k);
      }
    }
  }

  lemma {:induction false} CompetesClash(t: Tables, kind: ModelKind, ps: seq<Particle>, rows: seq<Row>, owner: seq<nat>, i: nat, j: nat)
    requires Acyclic(t.models) && Shape(kind, ps, |ps|, rows, owner) && Competes(t, kind, ps, i, j)
    requires forall k :: 0 <= k < |ps| ==> ps[k].occurs.Valid()
    ensures !UpaClean(t, rows)
  {
    assert OwnedBy(owner, i) && OwnedBy(owner, j);
    var a: nat :| 0 < a < |owner| && owner[a] == i;
    var b: nat :| 0 < b < |owner| && owner[b] == j;
    assert a < b;
    var s := MeetingRow(t, kind, ps, owner, a, b);
    var x := EdgeTo(kind, ps, owner, rows, s, a);
    var y := EdgeTo(kind, ps, owner, rows, s, b);
    assert EdgesAscend(rows[s]) && x < y;
    assert CountRight(ps, owner, s, rows[s]);
    assert !CountingException(s, rows[s], rows[s].edges[x], rows[s].edges[y]);
    assert !EdgesApart(t, s, rows[s]);
  }

  /** The rows are ambiguous exactly when particles compete. */
  lemma FlatCleanIff(t: Tables, kind: ModelKind, ps: seq<Particle>, rows: seq<Row>, owner: seq<nat>)
    requires Acyclic(t.models) && Shape(kind, ps, |ps|, rows, owner)
    requires forall k :: 0 <= k < |ps| ==> ps[k].occurs.Valid()
    ensures UpaClean(t, rows) <==> !FlatAmbiguous(t, kind, ps)
  {
    if FlatAmbiguous(t, kind, ps) {
      var i: nat, j: nat :| Competes(t, kind, ps, i, j);
      CompetesClash(t, kind, ps, rows, owner, i, j);
    }
    if !UpaClean(t, rows) {
      var s: nat :| s < |rows| && !EdgesApart(t, s, rows[s]);
      var i, j := RowCompetes(t, kind, ps, rows, owner, s);
    }
  }

  lemma RowCompetes(t: Tables, kind: ModelKind, ps: seq<Particle>, rows: seq<Row>, owner: seq<nat>, s: nat) returns (i: nat, j: nat)
    requires Acyclic(t.models) && Shape(kind, ps, |ps|, rows, owner) && s < |rows| && !EdgesApart(t, s, rows[s])
    requires forall k :: 0 <= k < |ps| ==> ps[k].occurs.Valid()
    ensures Competes(t, kind, ps, i, j)
  {
    var x: nat, y: nat :| x < y < |rows[s].edges| && TermsOverlap(t, rows[s].edges[x].term, rows[s].edges[y].term)
                          && !CountingException(s, rows[s], rows[s].edges[x], rows[s].edges[y]);
    assert EdgesAscend(rows[s]) && CountRight(ps, owner, s, rows[s]);
    assert EdgeRight(kind, ps, owner, s, rows[s].edges[x]) && EdgeRight(kind, ps, owner, s, rows[s].edges[y]);
    ClashCompetes(t, kind, ps, rows, owner, s, rows[s].edges[x], rows[s].edges[y]);
    i, j := owner[rows[s].edges[x].to], owner[rows[s].edges[y].to];
  }

  /** Competing particles overlap, so leaves that do not are never refused. */
  lemma ApartNotAmbiguous(t: Tables, kind: ModelKind, ps: seq<Particle>)
    requires Acyclic(t.models) && LeavesApart(t, Labels(ps))
    ensures !FlatAmbiguous(t, kind, ps)
  {
    forall i: nat, j: nat
      ensures !Competes(t, kind, ps, i, j)
    {
      assert i < j < |ps| ==> Labels(ps)[i] == ps[i].term && Labels(ps)[j] == ps[j].term;
    }
  }

  // ----- how many rows there are -----

  function Occurring(ps: seq<Particle>): nat {
    if ps == [] then 0 else Occurring(ps[..|ps| - 1]) + if ps[|ps| - 1].occurs.IsZero() then 0 else 1
  }

  /** A particle that may occur comes before any group, and no row is left for it. */
  ghost predicate NoRowFor(ps: seq<Particle>, limit: nat, n: nat) {
    n < |ps| && NoGroups(ps[..n + 1]) && !ps[n].occurs.IsZero() && Occurring(ps[..n]) + 1 >= Room(limit)
  }

  ghost predicate TooManyRows(ps: seq<Particle>, limit: nat) {
    exists n :: NoRowFor(ps, limit, n)
  }

  // ----- finishing -----

  function MarkAccept(rows: seq<Row>, active: seq<nat>): (r: seq<Row>)
    ensures |r| == |rows|
    ensures forall s :: 0 <= s < |rows| ==> r[s] == if s in active then rows[s].(accept := true) else rows[s]
  {
    seq(|rows|, s requires 0 <= s < |rows| => if s in active then rows[s].(accept := true) else rows[s])
  }

  lemma {:induction false} MarkedLang(t: Tables, rows: seq<Row>, active: seq<nat>, l: Lang, w: Word)
    requires Prefix(t, rows, active, l)
    ensures WellFormedRows(t, MarkAccept(rows, active))
    ensures RowsAccept(t, MarkAccept(rows, active), 0, w) <==> w in l
  {
    var marked := MarkAccept(rows, active);
    assert forall s :: 0 <= s < |rows| ==> marked[s].edges == rows[s].edges;
    if RowsAccept(t, marked, 0, w) {
      var st :| RowReach(t, marked, 0, w, st) && st.row < |marked| && Completes(marked, st);
      ReachSameMoves(t, marked, rows, 0, w, st);
      assert Leaves(rows, active, st);
      assert Ready(t, rows, active, w);
    }
    if Ready(t, rows, active, w) {
      var st :| RowReach(t, rows, 0, w, st) && Leaves(rows, active, st);
      ReachSameMoves(t, rows, marked, 0, w, st);
      assert Completes(marked, st);
    }
  }

  lemma NowhereToGo(t: Tables, w: Word, st: State)
    ensures RowReach(t, [PLAIN_ROW], 0, w, st) <==> w == [] && st == State(0, 0)
  {
    if w != [] {
      var n := |w| - 1;
      forall prev, e
        ensures !Takes(t, [PLAIN_ROW], prev, e, w[n], st)
      {
      }
      assert !RowReachThen(t, [PLAIN_ROW], 0, w[..n], w[n], st);
    }
  }

  lemma StartLang(t: Tables)
    ensures Prefix(t, [PLAIN_ROW], [0], EPSILON)
  {
    forall w: Word
      ensures Ready(t, [PLAIN_ROW], [0], w) <==> w == []
    {
      forall st
        ensures RowReach(t, [PLAIN_ROW], 0, w, st) <==> w == [] && st == State(0, 0)
      {
        NowhereToGo(t, w, st);
      }
      assert Leaves([PLAIN_ROW], [0], State(0, 0));
    }
    assert ReadyLang(t, [PLAIN_ROW], [0]) == EPSILON;
  }

  /** Acceptance does not matter to the shape. */
  lemma ShapeMarked(kind: ModelKind, ps: seq<Particle>, n: nat, rows: seq<Row>, owner: seq<nat>, marked: seq<Row>)
    requires Shape(kind, ps, n, rows, owner) && |marked| == |rows|
    requires forall s :: 0 <= s < |rows| ==> SameMoves(rows[s], marked[s])
    ensures Shape(kind, ps, n, marked, owner)
  {
    forall s: nat, to: nat | s < |marked| && Links(kind, ps, owner, s, to)
      ensures HasEdge(marked[s], to)
    {
      assert HasEdge(rows[s], to);
    }
    forall s: nat | s < |marked|
      ensures EdgesAscend(marked[s]) && CountRight(ps, owner, s, marked[s])
    {
      assert SameMoves(rows[s], marked[s]) && EdgesAscend(rows[s]) && CountRight(ps, owner, s, rows[s]);
    }
    forall s: nat, j | s < |marked| && 0 <= j < |marked[s].edges|
      ensures EdgeRight(kind, ps, owner, s, marked[s].edges[j])
    {
      assert SameMoves(rows[s], marked[s]) && EdgeRight(kind, ps, owner, s, rows[s].edges[j]);
    }
  }

  method FinishSequence(t: Tables, rows: seq<Row>, active: seq<nat>, ghost l: Lang, ghost ps: seq<Particle>, ghost owner: seq<nat>)
    returns (r: Outcome<Option<DfaRows>>)
    requires Acyclic(t.models) && Prefix(t, rows, active, l) && Shape(Sequence, ps, |ps|, rows, owner)
    requires forall k :: 0 <= k < |ps| ==> ps[k].occurs.Valid()
    ensures r.Ok? ==> r.value.Some? && Compiles(t, r.value.value, l)
    ensures r.Err? ==> r.error == UpaViolation
    ensures r.Err? <==> FlatAmbiguous(t, Sequence, ps)
  {
    var marked := MarkAccept(rows, active);
    forall w
      ensures WellFormedRows(t, marked) && (RowsAccept(t, marked, 0, w) <==> w in l)
    {
      MarkedLang(t, rows, active, l, w);
    }
    ShapeMarked(Sequence, ps, |ps|, rows, owner, marked);
    FlatCleanIff(t, Sequence, ps, marked, owner);
    var ok := CheckCompiledRowsUpa(t, marked);
    if !ok {
      return Err(UpaViolation);
    }
    return Ok(Some(DfaRows(marked, 0)));
  }

  ghost predicate NoGroups(ps: seq<Particle>) {
    forall i :: 0 <= i < |ps| ==> !ps[i].term.ModelTerm?
  }

  lemma LeafParticles(t: Tables, ps: seq<Particle>, i: nat)
    requires Acyclic(t.models) && i < |ps| && NoGroups(ps[..i + 1])
    ensures NoGroups(ps[..i]) && RefsInRange(t.models, ps[..i + 1]) && RefsInRange(t.models, ps[..i])
    ensures SequenceLang(t, ps[..i + 1]) == Cat(SequenceLang(t, ps[..i]), Rep(LeafLang(t, ps[i].term), ps[i].occurs))
    ensures ChoiceLang(t, ps[..i + 1]) == ChoiceLang(t, ps[..i]) + Rep(LeafLang(t, ps[i].term), ps[i].occurs)
  {
    var qs := ps[..i + 1];
    assert qs[..|qs| - 1] == ps[..i] && qs[|qs| - 1] == ps[i];
    assert ps[i].term == qs[i].term;
    assert ParticleLang(t, ps[i]) == Rep(LeafLang(t, ps[i].term), ps[i].occurs);
  }

  /** The rows for the first n particles of a sequence. */
  ghost predicate SequenceSoFar(t: Tables, ps: seq<Particle>, n: nat, rows: seq<Row>, active: seq<nat>, owner: seq<nat>) {
    match t case Tables(_, _, _, _, models) =>
      && Acyclic(models) && n <= |ps| && NoGroups(ps[..n]) && RefsInRange(models, ps[..n])
      && Prefix(t, rows, active, SequenceLang(t, ps[..n])) && Shape(Sequence, ps, n, rows, owner)
      && |rows| == Occurring(ps[..n]) + 1
      && ActiveRows(ps, n, owner, active)
  }

  lemma SequenceStart(t: Tables, ps: seq<Particle>)
    requires Acyclic(t.models)
    ensures SequenceSoFar(t, ps, 0, [PLAIN_ROW], [0], [0])
  {
    StartLang(t);
    StartShape(Sequence, ps);
    assert ps[..0] == [];
  }

  /** Which rows are active after one more particle. */
  lemma NextActive(ps: seq<Particle>, n: nat, owner: seq<nat>, s: nat)
    requires Owners(ps, n, owner) && n < |ps| && s <= |owner|
    ensures var owner' := NextOwner(ps, n, owner);
            s < |owner'| ==>
              (ActiveRow(Sequence, ps, owner', s, n + 1) <==>
               if s < |owner| then ps[n].occurs.min == 0 && ActiveRow(Sequence, ps, owner, s, n) else true)
  {
    var owner' := NextOwner(ps, n, owner);
    if s < |owner| {
      assert After(owner', s) == After(owner, s) && After(owner, s) <= n;
      assert Skippable(ps, After(owner, s), n + 1) <==> Skippable(ps, After(owner, s), n) && ps[n].occurs.min == 0;
    }
  }

  lemma OccurringNext(ps: seq<Particle>, n: nat)
    requires n < |ps|
    ensures Occurring(ps[..n + 1]) == Occurring(ps[..n]) + if ps[n].occurs.IsZero() then 0 else 1
  {
    assert ps[..n + 1][..n] == ps[..n];
  }

  /** Adds the next particle of a sequence, which is no group. */
  method NextInSequence(t: Tables, ghost ps: seq<Particle>, ghost n: nat, p: Particle, rows: seq<Row>, active: seq<nat>,
                        limit: nat, ghost owner: seq<nat>)
    returns (r: Outcome<seq<Row>>, active': seq<nat>, ghost owner': seq<nat>)
    requires SequenceSoFar(t, ps, n, rows, active, owner) && n < |ps| && p == ps[n]
    requires p.occurs.Valid() && ValidTerm(t, p.term)
    ensures r.Ok? ==> SequenceSoFar(t, ps, n + 1, r.value, active', owner')
    ensures r.Err? ==> r.error == StateLimit
    ensures r.Err? <==> NoRowFor(ps, limit, n)
  {
    assert ps[..n + 1] == ps[..n] + [p];
    LeafParticles(t, ps, n);
    OccurringNext(ps, n);
    owner' := NextOwner(ps, n, owner);
    r, active' := SequenceParticle(t, rows, active, p, limit, SequenceLang(t, ps[..n]));
    if r.Ok? {
      ShapeGrows(Sequence, ps, n, rows, owner, active, r.value);
      ActiveGrows(ps, n, owner, active, active');
    }
  }

  /** The active rows are those that everything after may be absent from. */
  ghost predicate ActiveRows(ps: seq<Particle>, n: nat, owner: seq<nat>, active: seq<nat>) {
    forall s: nat :: s < |owner| ==> (s in active <==> ActiveRow(Sequence, ps, owner, s, n))
  }

  lemma ActiveGrows(ps: seq<Particle>, n: nat, owner: seq<nat>, active: seq<nat>, active': seq<nat>)
    requires Owners(ps, n, owner) && n < |ps| && ActiveRows(ps, n, owner, active)
    requires forall s :: s in active' <==> (ps[n].occurs.min == 0 && s in active) || (!ps[n].occurs.IsZero() && s == |owner|)
    requires ps[n].occurs.IsZero() ==> ps[n].occurs.min == 0
    requires forall s :: s in active ==> s < |owner|
    ensures ActiveRows(ps, n + 1, NextOwner(ps, n, owner), active')
  {
    var owner' := NextOwner(ps, n, owner);
    forall s: nat | s < |owner'|
      ensures s in active' <==> ActiveRow(Sequence, ps, owner', s, n + 1)
    {
      NextActive(ps, n, owner, s);
    }
  }

  ghost predicate NoRowsBefore(ps: seq<Particle>, limit: nat, n: nat) {
    match ps case _ => forall k: nat :: k < n ==> !NoRowFor(ps, limit, k)
  }

  lemma OneMoreRow(ps: seq<Particle>, limit: nat, n: nat)
    requires NoRowsBefore(ps, limit, n) && !NoRowFor(ps, limit, n)
    ensures NoRowsBefore(ps, limit, n + 1)
  {
  }

  lemma AllRowsFit(ps: seq<Particle>, limit: nat)
    requires NoRowsBefore(ps, limit, |ps|)
    ensures !TooManyRows(ps, limit) && ps[..|ps|] == ps
  {
  }

  /** After a group there is nothing more to run out of. */
  lemma StopsAtGroup(ps: seq<Particle>, limit: nat, n: nat)
    requires n < |ps| && ps[n].term.ModelTerm? && NoRowsBefore(ps, limit, n)
    ensures !TooManyRows(ps, limit)
  {
    forall k: nat
      ensures !NoRowFor(ps, limit, k)
    {
      if n <= k < |ps| {
        assert ps[..k + 1][n].term.ModelTerm?;
      }
    }
  }

  /** Rows run out before a group, or a group is met, or particles compete, or it compiles. */
  ghost predicate FlatOutcome(t: Tables, kind: ModelKind, ps: seq<Particle>, limit: nat, r: Outcome<Option<DfaRows>>)
    requires Acyclic(t.models)
  {
    match r
    case Ok(None) => !NoGroups(ps) && !TooManyRows(ps, limit)
    case Ok(Some(_)) => NoGroups(ps) && !TooManyRows(ps, limit) && !FlatAmbiguous(t, kind, ps)
    case Err(e) =>
      if TooManyRows(ps, limit) then e == StateLimit
      else e == UpaViolation && NoGroups(ps) && FlatAmbiguous(t, kind, ps)
  }

  /** Declines when a particle is a group; otherwise compiles exactly the sequence. It fails
      exactly when rows run out before a group, or when particles compete. */
  method CompileDirectSequence(t: Tables, m: ContentModel, limits: seq<Uint32>, limit: nat) returns (r: Outcome<Option<DfaRows>>)
    requires Acyclic(t.models) && ValidModel(t, m)
    ensures r.Ok? && r.value.Some? ==>
              && NoGroups(LimitParticles(m.particles, limits))
              && Compiles(t, r.value.value, SequenceLang(t, LimitParticles(m.particles, limits)))
    ensures FlatOutcome(t, Sequence, LimitParticles(m.particles, limits), limit, r)
  {
    var rows, active := [PLAIN_ROW], [0];
    ghost var ps := LimitParticles(m.particles, limits);
    ghost var owner: seq<nat> := [0];
    SequenceStart(t, ps);
    for i := 0 to |m.particles|
      invariant SequenceSoFar(t, ps, i, rows, active, owner) && NoRowsBefore(ps, limit, i)
    {
      var p := ApplyRepeatedChoiceLimit(m.particles[i], i, limits);
      LimitsStayValid(m.particles, limits);
      if p.term.ModelTerm? {
        StopsAtGroup(ps, limit, i);
        return Ok(None);
      }
      var grown;
      grown, active, owner := NextInSequence(t, ps, i, p, rows, active, limit, owner);
      if grown.Err? {
        return Err(grown.error);
      }
      OneMoreRow(ps, limit, i);
      rows := grown.value;
    }
    AllRowsFit(ps, limit);
    LimitsStayValid(m.particles, limits);
    r := FinishSequence(t, rows, active, SequenceLang(t, ps), ps, owner);
  }

  lemma LimitsStayValid(ps: seq<Particle>, limits: seq<Uint32>)
    requires forall k :: 0 <= k < |ps| ==> ps[k].occurs.Valid()
    ensures forall k :: 0 <= k < |ps| ==> LimitParticles(ps, limits)[k].occurs.Valid()
  {
  }

  // ----- choices -----

  /** The rows built for the first alternatives: nothing leads back to the start. */
  ghost predicate Alternatives(t: Tables, rows: seq<Row>, l: Lang) {
    && |rows| > 0 && WellFormedRows(t, rows) && !rows[0].counted
    && (forall s, j :: 0 <= s < |rows| && 0 <= j < |rows[s].edges| ==> rows[s].edges[j].to != 0)
    && forall w :: RowsAccept(t, rows, 0, w) <==> w in l
  }

  lemma AtStart(t: Tables, rows: seq<Row>, w: Word, st: State)
    requires |rows| > 0
    requires forall s, j :: 0 <= s < |rows| && 0 <= j < |rows[s].edges| ==> rows[s].edges[j].to != 0
    requires st.row == 0
    ensures RowReach(t, rows, 0, w, st) ==> w == [] && st == State(0, 0)
  {
    if w != [] {
      var n := |w| - 1;
      forall prev, e
        ensures !Takes(t, rows, prev, e, w[n], st)
      {
      }
      assert !RowReachThen(t, rows, 0, w[..n], w[n], st);
    }
  }

  lemma StartReady(t: Tables, rows: seq<Row>)
    requires |rows| > 0 && !rows[0].counted
    requires forall s, j :: 0 <= s < |rows| && 0 <= j < |rows[s].edges| ==> rows[s].edges[j].to != 0
    ensures ReadyLang(t, rows, [0]) == EPSILON
  {
    forall w: Word
      ensures Ready(t, rows, [0], w) <==> w == []
    {
      if Ready(t, rows, [0], w) {
        var st :| RowReach(t, rows, 0, w, st) && Leaves(rows, [0], st);
        AtStart(t, rows, w, st);
      }
      assert RowReach(t, rows, 0, [], State(0, 0)) && Leaves(rows, [0], State(0, 0));
    }
  }

  /** What the new alternative accepts: its own words, and the empty word at the start
      when it may be absent. */
  lemma NewAlternative(g: Growth, active': seq<nat>, w: Word)
    requires g.active == [0] && !g.rows[0].counted
    requires forall s, j :: 0 <= s < |g.rows| && 0 <= j < |g.rows[s].edges| ==> g.rows[s].edges[j].to != 0
    requires active' == if g.o.min == 0 then [|g.rows|, 0] else [|g.rows|]
    ensures Ready(g.t, g.rows', active', w) <==> w in Rep(LeafLang(g.t, g.term), g.o)
  {
    StartReady(g.t, g.rows);
    GrownLang(g, active');
    EpsilonCat(Rep(LeafLang(g.t, g.term), g.o));
    assert w in ReadyLang(g.t, g.rows', active') <==> Ready(g.t, g.rows', active', w);
  }

  lemma {:induction false} ChoiceGrown(g: Growth, w: Word)
    requires g.active == [0] && !g.rows[0].counted
    requires forall s, j :: 0 <= s < |g.rows| && 0 <= j < |g.rows[s].edges| ==> g.rows[s].edges[j].to != 0
    requires g.rows'[|g.rows|].accept && g.rows'[0].accept == (g.rows[0].accept || g.o.min == 0)
    requires forall s :: 0 < s < |g.rows| ==> g.rows'[s].accept == g.rows[s].accept
    ensures RowsAccept(g.t, g.rows', 0, w) <==> RowsAccept(g.t, g.rows, 0, w) || w in Rep(LeafLang(g.t, g.term), g.o)
  {
    var to := |g.rows|;
    var active' := if g.o.min == 0 then [to, 0] else [to];
    NewAlternative(g, active', w);
    if RowsAccept(g.t, g.rows', 0, w) {
      var st :| RowReach(g.t, g.rows', 0, w, st) && st.row < |g.rows'| && Completes(g.rows', st);
      AcceptedEither(g, active', w, st);
    }
    if RowsAccept(g.t, g.rows, 0, w) {
      var st :| RowReach(g.t, g.rows, 0, w, st) && st.row < |g.rows| && Completes(g.rows, st);
      OldReach(g, w, st);
      assert SameCount(g.rows[st.row], g.rows'[st.row]);
      assert Completes(g.rows', st);
    }
    if Ready(g.t, g.rows', active', w) {
      var st :| RowReach(g.t, g.rows', 0, w, st) && Leaves(g.rows', active', st);
      assert Completes(g.rows', st);
    }
  }

  lemma AcceptedEither(g: Growth, active': seq<nat>, w: Word, st: State)
    requires active' == if g.o.min == 0 then [|g.rows|, 0] else [|g.rows|]
    requires g.rows'[0].accept ==> g.rows[0].accept || g.o.min == 0
    requires forall s :: 0 < s < |g.rows| ==> g.rows'[s].accept == g.rows[s].accept
    requires RowReach(g.t, g.rows', 0, w, st) && st.row < |g.rows'| && Completes(g.rows', st)
    ensures RowsAccept(g.t, g.rows, 0, w) || Ready(g.t, g.rows', active', w)
  {
    if st.row == |g.rows| || (st.row == 0 && g.o.min == 0) {
      assert Leaves(g.rows', active', st);
    } else {
      OldReach(g, w, st);
      assert SameCount(g.rows[st.row], g.rows'[st.row]);
      assert Completes(g.rows, st);
    }
  }

  function AcceptStart(rows: seq<Row>): (r: seq<Row>)
    requires |rows| > 0
    ensures |r| == |rows| && r[0] == rows[0].(accept := true)
    ensures forall s :: 0 < s < |rows| ==> r[s] == rows[s]
  {
    rows[0 := rows[0].(accept := true)]
  }

  lemma StartAccepts(t: Tables, rows: seq<Row>, l: Lang)
    requires Alternatives(t, rows, l)
    ensures Alternatives(t, AcceptStart(rows), l + EPSILON)
  {
    var marked := AcceptStart(rows);
    forall w
      ensures RowsAccept(t, marked, 0, w) <==> w in l || w == []
    {
      if RowsAccept(t, marked, 0, w) {
        var st :| RowReach(t, marked, 0, w, st) && st.row < |marked| && Completes(marked, st);
        ReachSameMoves(t, marked, rows, 0, w, st);
        if st.row == 0 {
          AtStart(t, rows, w, st);
        } else {
          assert Completes(rows, st);
        }
      }
      if RowsAccept(t, rows, 0, w) {
        var st :| RowReach(t, rows, 0, w, st) && st.row < |rows| && Completes(rows, st);
        ReachSameMoves(t, rows, marked, 0, w, st);
        assert Completes(marked, st);
      }
      if w == [] {
        assert RowReach(t, marked, 0, w, State(0, 0)) && Completes(marked, State(0, 0));
      }
    }
  }

  method ChoiceParticle(t: Tables, rows: seq<Row>, p: Particle, limit: nat, ghost l: Lang) returns (r: Outcome<seq<Row>>)
    requires Alternatives(t, rows, l) && p.occurs.Valid() && ValidTerm(t, p.term)
    ensures r.Ok? ==> Alternatives(t, r.value, l + Rep(LeafLang(t, p.term), p.occurs)) && GrownBy(rows, [0], p, r.value)
    ensures r.Err? ==> r.error == StateLimit
    ensures r.Err? <==> !p.occurs.IsZero() && |rows| >= Room(limit)
  {
    if p.occurs.IsZero() {
      RepZero(LeafLang(t, p.term), p.occurs);
      StartAccepts(t, rows, l);
      ZeroGrown(rows, [0], p, AcceptStart(rows));
      return Ok(AcceptStart(rows));
    }
    var marked := if p.occurs.min == 0 then AcceptStart(rows) else rows;
    r := GrowRows(t, marked, [0], p.term, p.occurs, true, limit);
    if r.Ok? {
      MarkedGrown(t, rows, marked, p.term, p.occurs, r.value);
      GrownAlternatives(GrowCase(t, rows, [0], p.term, p.occurs, r.value), l);
      GrowthIsGrown(GrowCase(t, rows, [0], p.term, p.occurs, r.value), p);
    }
  }

  lemma MarkedGrown(t: Tables, rows: seq<Row>, marked: seq<Row>, term: Term, o: Occurrence, rows': seq<Row>)
    requires Grown(GrowCase(t, marked, [0], term, o, rows'))
    requires |marked| == |rows| && forall s :: 0 <= s < |rows| ==> SameMoves(rows[s], marked[s])
    ensures Grown(GrowCase(t, rows, [0], term, o, rows'))
  {
    forall s | 0 <= s < |rows|
      ensures SameCount(rows[s], rows'[s])
    {
      assert SameCount(marked[s], rows'[s]);
    }
  }

  lemma GrownAlternatives(g: Growth, l: Lang)
    requires Alternatives(g.t, g.rows, l) && g.active == [0] && WellFormedRows(g.t, g.rows')
    requires g.rows'[|g.rows|].accept && g.rows'[0].accept == (g.rows[0].accept || g.o.min == 0)
    requires forall s :: 0 < s < |g.rows| ==> g.rows'[s].accept == g.rows[s].accept
    ensures Alternatives(g.t, g.rows', l + Rep(LeafLang(g.t, g.term), g.o))
  {
    assert SameCount(g.rows[0], g.rows'[0]);
    forall w
      ensures RowsAccept(g.t, g.rows', 0, w) <==> w in l || w in Rep(LeafLang(g.t, g.term), g.o)
    {
      ChoiceGrown(g, w);
    }
    forall s, j | 0 <= s < |g.rows'| && 0 <= j < |g.rows'[s].edges|
      ensures g.rows'[s].edges[j].to != 0
    {
      assert s < |g.rows| && j < |g.rows[s].edges| ==> g.rows'[s].edges[j] == g.rows[s].edges[j];
    }
  }

  lemma NoAlternatives(t: Tables)
    ensures Alternatives(t, [PLAIN_ROW], EMPTY)
  {
    forall w
      ensures !RowsAccept(t, [PLAIN_ROW], 0, w)
    {
    }
  }

  /** The rows for the first n alternatives of a choice. */
  ghost predicate ChoiceSoFar(t: Tables, ps: seq<Particle>, n: nat, rows: seq<Row>, owner: seq<nat>) {
    match t case Tables(_, _, _, _, models) =>
      && Acyclic(models) && n <= |ps| && NoGroups(ps[..n]) && RefsInRange(models, ps[..n])
      && Alternatives(t, rows, ChoiceLang(t, ps[..n])) && Shape(Choice, ps, n, rows, owner)
      && |rows| == Occurring(ps[..n]) + 1
  }

  lemma ChoiceStart(t: Tables, ps: seq<Particle>)
    requires Acyclic(t.models)
    ensures ChoiceSoFar(t, ps, 0, [PLAIN_ROW], [0])
  {
    NoAlternatives(t);
    StartShape(Choice, ps);
    assert ps[..0] == [];
  }

  /** Adds the next alternative of a choice, which is no group. */
  method NextInChoice(t: Tables, ghost ps: seq<Particle>, ghost n: nat, p: Particle, rows: seq<Row>, limit: nat, ghost owner: seq<nat>)
    returns (r: Outcome<seq<Row>>, ghost owner': seq<nat>)
    requires ChoiceSoFar(t, ps, n, rows, owner) && n < |ps| && p == ps[n]
    requires p.occurs.Valid() && ValidTerm(t, p.term)
    ensures r.Ok? ==> ChoiceSoFar(t, ps, n + 1, r.value, owner')
    ensures r.Err? ==> r.error == StateLimit
    ensures r.Err? <==> NoRowFor(ps, limit, n)
  {
    assert ps[..n + 1] == ps[..n] + [p];
    LeafParticles(t, ps, n);
    OccurringNext(ps, n);
    owner' := NextOwner(ps, n, owner);
    r := ChoiceParticle(t, rows, p, limit, ChoiceLang(t, ps[..n]));
    if r.Ok? {
      ShapeGrows(Choice, ps, n, rows, owner, [0], r.value);
    }
  }

  method FinishChoice(t: Tables, rows: seq<Row>, ghost l: Lang, ghost ps: seq<Particle>, ghost owner: seq<nat>)
    returns (r: Outcome<Option<DfaRows>>)
    requires Acyclic(t.models) && Alternatives(t, rows, l) && Shape(Choice, ps, |ps|, rows, owner)
    requires forall k :: 0 <= k < |ps| ==> ps[k].occurs.Valid()
    ensures r.Ok? ==> r.value.Some? && Compiles(t, r.value.value, l)
    ensures r.Err? ==> r.error == UpaViolation
    ensures r.Err? <==> FlatAmbiguous(t, Choice, ps)
  {
    FlatCleanIff(t, Choice, ps, rows, owner);
    var ok := CheckCompiledRowsUpa(t, rows);
    if !ok {
      return Err(UpaViolation);
    }
    return Ok(Some(DfaRows(rows, 0)));
  }

  /** Declines when a particle is a group; otherwise compiles exactly the choice. It fails
      exactly when rows run out before a group, or when two alternatives overlap. */
  method CompileDirectChoice(t: Tables, m: ContentModel, limit: nat) returns (r: Outcome<Option<DfaRows>>)
    requires Acyclic(t.models) && ValidModel(t, m)
    ensures r.Ok? && r.value.Some? ==> NoGroups(m.particles) && Compiles(t, r.value.value, ChoiceLang(t, m.particles))
    ensures FlatOutcome(t, Choice, m.particles, limit, r)
  {
    var rows := [PLAIN_ROW];
    ghost var ps := m.particles;
    ghost var owner: seq<nat> := [0];
    ChoiceStart(t, ps);
    for i := 0 to |m.particles|
      invariant ChoiceSoFar(t, ps, i, rows, owner) && NoRowsBefore(ps, limit, i)
    {
      var p := m.particles[i];
      if p.term.ModelTerm? {
        StopsAtGroup(ps, limit, i);
        return Ok(None);
      }
      var grown;
      grown, owner := NextInChoice(t, ps, i, p, rows, limit, owner);
      if grown.Err? {
        return Err(grown.error);
      }
      OneMoreRow(ps, limit, i);
      rows := grown.value;
    }
    AllRowsFit(ps, limit);
    r := FinishChoice(t, rows, ChoiceLang(t, ps), ps, owner);
  }

  /** Without groups there is nothing an automaton could not be built for. */
  lemma {:induction false} NoGroupsSupported(t: Tables, ps: seq<Particle>)
    requires Acyclic(t.models) && RefsInRange(t.models, ps) && NoGroups(ps)
    ensures SupportedParticles(t, ps)
  {
    if ps != [] {
      NoGroupsSupported(t, ps[..|ps| - 1]);
    }
  }

  lemma {:induction false} LeavesOfNoGroups(t: Tables, ps: seq<Particle>)
    requires Acyclic(t.models) && RefsInRange(t.models, ps) && NoGroups(ps)
    ensures ParticleLeaves(t, ps) == Labels(ps)
  {
    if ps != [] {
      LeavesOfNoGroups(t, ps[..|ps| - 1]);
    }
  }
}
