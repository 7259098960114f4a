/** Compiled content-model rows and the machine that runs over them: a state is a
    row and, for a counted row, how often its term has been matched. */
module CompiledRows {
  import opened Schema
  import opened Languages
  import opened ContentLanguage
  import opened Overlap

  datatype RowIndex = RowIndex(nameToEdge: map<QName, nat>, wildcardEdges: seq<nat>, enabled: bool)

  const NO_INDEX := RowIndex(map[], [], false)

  datatype RowEdge = RowEdge(term: Term, to: nat)

  datatype Row = Row(
    edges: seq<RowEdge>, index: RowIndex, countTerm: Option<Term>, min: Uint32, max: Uint32,
    accept: bool, counted: bool, unbounded: bool)

  const PLAIN_ROW := Row([], NO_INDEX, None, 0, 0, false, false, false)

  datatype State = State(row: nat, count: Uint32)

  ghost predicate WellFormedRows(t: Tables, rows: seq<Row>) {
    forall i, j :: 0 <= i < |rows| && 0 <= j < |rows[i].edges| ==>
      rows[i].edges[j].to < |rows| && ValidTerm(t, rows[i].edges[j].term)
  }

  // ----- one step -----

  /** Taking an edge that matched: a counted self-loop needs room, leaving a counted
      row needs its minimum. The count stops growing at the largest uint32. */
  function AdvanceState(rows: seq<Row>, st: State, edge: RowEdge): Option<State>
    requires st.row < |rows| && edge.to < |rows|
  {
    var from := rows[st.row];
    var next := rows[edge.to];
    if from.counted && edge.to == st.row && Some(edge.term) == from.countTerm then
      if !from.unbounded && st.count >= from.max then None
      else Some(State(edge.to, if st.count != MAX_UINT32 then st.count + 1 else st.count))
    else if from.counted && st.count < from.min then None
    else Some(State(edge.to, if next.counted && Some(edge.term) == next.countTerm then 1 else 0))
  }

  predicate Completes(rows: seq<Row>, st: State)
    requires st.row < |rows|
  {
    rows[st.row].accept && (!rows[st.row].counted || st.count >= rows[st.row].min)
  }

  ghost predicate Takes(t: Tables, rows: seq<Row>, st: State, e: RowEdge, x: Input, st': State) {
    && st.row < |rows| && e in rows[st.row].edges && e.to < |rows|
    && TermMatches(t, e.term, x)
    && AdvanceState(rows, st, e) == Some(st')
  }

  /** Some choice of edges leads from the start over w to st. */
  ghost predicate RowReach(t: Tables, rows: seq<Row>, start: nat, w: Word, st: State)
    decreases |w|, 0
  {
    if w == [] then st == State(start, 0)
    else RowReachThen(t, rows, start, w[..|w| - 1], w[|w| - 1], st)
  }

  ghost predicate RowReachThen(t: Tables, rows: seq<Row>, start: nat, u: Word, x: Input, st: State)
    decreases |u|, 1
  {
    exists prev, e :: RowReach(t, rows, start, u, prev) && Takes(t, rows, prev, e, x, st)
  }

  ghost predicate RowsAccept(t: Tables, rows: seq<Row>, start: nat, w: Word) {
    exists st :: RowReach(t, rows, start, w, st) && st.row < |rows| && Completes(rows, st)
  }

  // ----- unique particle attribution on rows -----

  /** The one overlap a row may have: the loop and an exit of a fixed repetition. */
  predicate CountingException(index: nat, row: Row, a: RowEdge, b: RowEdge) {
    if !row.counted || row.unbounded || row.min != row.max then false
    else
      var aLoop := a.to == index && Some(a.term) == row.countTerm;
      var bLoop := b.to == index && Some(b.term) == row.countTerm;
      (aLoop && b.to != index) || (bLoop && a.to != index)
  }

  ghost predicate EdgesApart(t: Tables, index: nat, row: Row)
    requires Acyclic(t.models)
  {
    forall i, j :: 0 <= i < j < |row.edges| ==>
      !TermsOverlap(t, row.edges[i].term, row.edges[j].term) || CountingException(index, row, row.edges[i], row.edges[j])
  }

  ghost predicate UpaClean(t: Tables, rows: seq<Row>)
    requires Acyclic(t.models)
  {
    forall s :: 0 <= s < |rows| ==> EdgesApart(t, s, rows[s])
  }

  /** In a clean row at most one edge can match and advance, whatever the child and
      whatever the count. */
  lemma AtMostOneEdge(t: Tables, rows: seq<Row>, st: State, i: nat, j: nat, x: Input)
    requires Acyclic(t.models) && WellFormedSubstitutions(t) && UpaClean(t, rows)
    requires st.row < |rows| && i < j < |rows[st.row].edges|
    requires rows[st.row].edges[i].to < |rows| && rows[st.row].edges[j].to < |rows|
    requires TermMatches(t, rows[st.row].edges[i].term, x) && TermMatches(t, rows[st.row].edges[j].term, x)
    ensures AdvanceState(rows, st, rows[st.row].edges[i]) == None || AdvanceState(rows, st, rows[st.row].edges[j]) == None
  {
    var row := rows[st.row];
    BothMatchOverlap(t, row.edges[i].term, row.edges[j].term, x);
    assert EdgesApart(t, st.row, row);
  }

  // ----- the linear scan -----

  datatype Advance = InvalidState | NoTransition | Advanced(m: ContentMatch, st: State)

  /** First edge from position i on that matches and advances. */
  function Scan(t: Tables, rows: seq<Row>, st: State, x: Input, i: nat): Advance
    requires st.row < |rows| && i <= |rows[st.row].edges|
    requires forall j :: 0 <= j < |rows[st.row].edges| ==> rows[st.row].edges[j].to < |rows|
    decreases |rows[st.row].edges| - i
  {
    var edges := rows[st.row].edges;
    if i == |edges| then NoTransition
    else match MatchDirect(t, edges[i].term, x)
      case Invalid => InvalidState
      case Unmatched => Scan(t, rows, st, x, i + 1)
      case Matched(m) =>
        match AdvanceState(rows, st, edges[i])
        case None => Scan(t, rows, st, x, i + 1)
        case Some(st') => Advanced(m, st')
  }

  /** A step the scan takes is by an edge of the row, and reports what that edge's term reports. */
  lemma {:induction false} ScanReports(t: Tables, rows: seq<Row>, st: State, x: Input, i: nat) returns (j: nat)
    requires WellFormedRows(t, rows) && st.row < |rows| && i <= |rows[st.row].edges|
    requires Scan(t, rows, st, x, i).Advanced?
    ensures var r := Scan(t, rows, st, x, i);
            && i <= j < |rows[st.row].edges| && Takes(t, rows, st, rows[st.row].edges[j], x, r.st)
            && Reports(t, rows[st.row].edges[j].term, x, r.m)
    decreases |rows[st.row].edges| - i
  {
    var edges := rows[st.row].edges;
    var m := MatchDirect(t, edges[i].term, x);
    if m.Matched? && AdvanceState(rows, st, edges[i]).Some? {
      j := i;
    } else {
      j := ScanReports(t, rows, st, x, i + 1);
    }
  }

  lemma {:induction false} ScanTakes(t: Tables, rows: seq<Row>, st: State, x: Input, i: nat)
    requires WellFormedRows(t, rows) && st.row < |rows| && i <= |rows[st.row].edges|
    ensures var r := Scan(t, rows, st, x, i);
            && !r.InvalidState?
            && (r.Advanced? ==> exists e :: Takes(t, rows, st, e, x, r.st))
            && (r.NoTransition? ==>
                  forall j, st' :: i <= j < |rows[st.row].edges| ==> !Takes(t, rows, st, rows[st.row].edges[j], x, st'))
    decreases |rows[st.row].edges| - i
  {
    var edges := rows[st.row].edges;
    if i < |edges| {
      ScanTakes(t, rows, st, x, i + 1);
      if Scan(t, rows, st, x, i).Advanced? && Scan(t, rows, st, x, i) != Scan(t, rows, st, x, i + 1) {
        assert Takes(t, rows, st, edges[i], x, Scan(t, rows, st, x, i).st);
      }
    }
  }

  /** In a clean row the scan's answer is the only possible step. */
  lemma ScanIsUnique(t: Tables, rows: seq<Row>, st: State, e: RowEdge, x: Input, st': State)
    requires Acyclic(t.models) && WellFormedSubstitutions(t) && UpaClean(t, rows) && WellFormedRows(t, rows)
    requires Takes(t, rows, st, e, x, st')
    ensures var r := Scan(t, rows, st, x, 0); r.Advanced? && r.st == st'
  {
    var edges := rows[st.row].edges;
    var i :| 0 <= i < |edges| && edges[i] == e;
    forall j | 0 <= j < i
      ensures !TermMatches(t, edges[j].term, x) || AdvanceState(rows, st, edges[j]) == None
    {
      if TermMatches(t, edges[j].term, x) {
        AtMostOneEdge(t, rows, st, j, i, x);
      }
    }
    ScanSkips(t, rows, st, x, 0, i);
  }

  lemma {:induction false} ScanSkips(t: Tables, rows: seq<Row>, st: State, x: Input, i: nat, k: nat)
    requires WellFormedRows(t, rows) && st.row < |rows| && i <= k <= |rows[st.row].edges|
    requires forall j :: i <= j < k ==>
               !TermMatches(t, rows[st.row].edges[j].term, x) || AdvanceState(rows, st, rows[st.row].edges[j]) == None
    ensures Scan(t, rows, st, x, i) == Scan(t, rows, st, x, k)
    decreases k - i
  {
    if i < k {
      ScanSkips(t, rows, st, x, i + 1, k);
    }
  }

  // ----- running a whole word -----

  function Run(t: Tables, rows: seq<Row>, start: nat, w: Word): Option<State>
    requires WellFormedRows(t, rows) && start < |rows|
    ensures Run(t, rows, start, w).Some? ==> Run(t, rows, start, w).value.row < |rows|
    decreases |w|
  {
    if w == [] then Some(State(start, 0))
    else
      match Run(t, rows, start, w[..|w| - 1])
      case None => None
      case Some(st) =>
        ScanStaysInRange(t, rows, st, w[|w| - 1], 0);
        match Scan(t, rows, st, w[|w| - 1], 0)
        case Advanced(_, st') => Some(st')
        case _ => None
  }

  lemma {:induction false} ScanStaysInRange(t: Tables, rows: seq<Row>, st: State, x: Input, i: nat)
    requires WellFormedRows(t, rows) && st.row < |rows| && i <= |rows[st.row].edges|
    ensures Scan(t, rows, st, x, i).Advanced? ==> Scan(t, rows, st, x, i).st.row < |rows|
    decreases |rows[st.row].edges| - i
  {
    if i < |rows[st.row].edges| {
      ScanStaysInRange(t, rows, st, x, i + 1);
    }
  }

  predicate RunAccepts(t: Tables, rows: seq<Row>, start: nat, w: Word)
    requires WellFormedRows(t, rows) && start < |rows|
  {
    var r := Run(t, rows, start, w);
    r.Some? && Completes(rows, r.value)
  }

  /** Without ambiguity, the machine that never backtracks explores everything. */
  lemma {:induction false} RunIsReach(t: Tables, rows: seq<Row>, start: nat, w: Word, st: State)
    requires Acyclic(t.models) && WellFormedSubstitutions(t) && UpaClean(t, rows)
    requires WellFormedRows(t, rows) && start < |rows|
    ensures Run(t, rows, start, w) == Some(st) <==> RowReach(t, rows, start, w, st)
    decreases |w|
  {
    if w != [] {
      var n := |w| - 1;
      var r := Run(t, rows, start, w[..n]);
      if Run(t, rows, start, w) == Some(st) {
        RunIsReach(t, rows, start, w[..n], r.value);
        ScanTakes(t, rows, r.value, w[n], 0);
        var scan := Scan(t, rows, r.value, w[n], 0);
        var e :| Takes(t, rows, r.value, e, w[n], scan.st);
        assert RowReachThen(t, rows, start, w[..n], w[n], st);
      }
      if RowReach(t, rows, start, w, st) {
        assert RowReachThen(t, rows, start, w[..n], w[n], st);
        var prev, e :| RowReach(t, rows, start, w[..n], prev) && Takes(t, rows, prev, e, w[n], st);
        RunIsReach(t, rows, start, w[..n], prev);
        ScanIsUnique(t, rows, prev, e, w[n], st);
      }
    }
  }

  lemma RunAcceptsIff(t: Tables, rows: seq<Row>, start: nat, w: Word)
    requires Acyclic(t.models) && WellFormedSubstitutions(t) && UpaClean(t, rows)
    requires WellFormedRows(t, rows) && start < |rows|
    ensures RunAccepts(t, rows, start, w) <==> RowsAccept(t, rows, start, w)
  {
    if RunAccepts(t, rows, start, w) {
      RunIsReach(t, rows, start, w, Run(t, rows, start, w).value);
    }
    if RowsAccept(t, rows, start, w) {
      var st :| RowReach(t, rows, start, w, st) && st.row < |rows| && Completes(rows, st);
      RunIsReach(t, rows, start, w, st);
    }
  }

  // ----- checking rows -----

  function EdgeTerms(row: Row): (r: seq<Term>)
    ensures |r| == |row.edges| && forall i :: 0 <= i < |r| ==> r[i] == row.edges[i].term
  {
    seq(|row.edges|, i requires 0 <= i < |row.edges| => row.edges[i].term)
  }

  /** Accepts exactly the clean row tables: the pre-check never hides a clash. */
  method CheckCompiledRowsUpa(t: Tables, rows: seq<Row>) returns (ok: bool)
    requires Acyclic(t.models)
    ensures ok <==> UpaClean(t, rows)
  {
    for s := 0 to |rows|
      invariant forall k :: 0 <= k < s ==> EdgesApart(t, k, rows[k])
    {
      var row := rows[s];
      var terms := EdgeTerms(row);
      var needed := NeedUpaCheck(t, terms);
      if needed {
        for i := 0 to |row.edges|
          invariant forall a, b :: 0 <= a < i && a < b < |row.edges| ==>
                      !TermsOverlap(t, row.edges[a].term, row.edges[b].term) || CountingException(s, row, row.edges[a], row.edges[b])
        {
          for j := i + 1 to |row.edges|
            invariant forall b :: i < b < j ==>
                        !TermsOverlap(t, row.edges[i].term, row.edges[b].term) || CountingException(s, row, row.edges[i], row.edges[b])
          {
            if TermsOverlap(t, row.edges[i].term, row.edges[j].term) && !CountingException(s, row, row.edges[i], row.edges[j]) {
              assert !EdgesApart(t, s, row);
              return false;
            }
          }
        }
      }
      assert EdgesApart(t, s, row);
    }
    return true;
  }
}
