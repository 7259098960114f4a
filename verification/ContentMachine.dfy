/** The mutable state that validation keeps for a compiled row machine, advanced one
    child at a time by a linear scan or through the row's index. */
module ContentMachines {
  import opened Schema
  import opened ContentLanguage
  import opened CompiledRows
  import opened CountedRows
  import opened RowIndexes

  datatype Step = StepInvalid | StepNoMatch | StepMatched(m: ContentMatch)

  /** A step reports what the scan says and moves only when it says so. */
  ghost predicate Agrees(scan: Advance, before: State, r: Step, after: State) {
    (r, after) == StepOf(scan, before)
  }

  function StepOf(scan: Advance, before: State): (Step, State) {
    match scan
    case InvalidState => (StepInvalid, before)
    case NoTransition => (StepNoMatch, before)
    case Advanced(m, st) => (StepMatched(m), st)
  }

  // ----- the cursor of the indexed scan -----

  /** The candidates not yet tried: listed wildcards from `wildcard` on, and the named edge. */
  datatype Cursor = Cursor(named: Option<nat>, wildcard: nat)

  /** Exactly the candidates before edge k have been tried. */
  ghost predicate CursorAt(index: RowIndex, x: Input, k: nat, c: Cursor) {
    match c case Cursor(named, wi) =>
      && wi <= |index.wildcardEdges|
      && (forall q :: 0 <= q < |index.wildcardEdges| ==> (q < wi <==> index.wildcardEdges[q] < k))
      && match NamedEdge(index, x)
         case None => named.None?
         case Some(n) => named == if n < k then None else Some(n)
  }

  /** No candidate lies between the cursor and pos. */
  ghost predicate NoneBefore(index: RowIndex, c: Cursor, pos: nat) {
    && (c.wildcard < |index.wildcardEdges| ==> pos <= index.wildcardEdges[c.wildcard])
    && (c.named.Some? ==> pos <= c.named.value)
  }

  lemma NoWildcardBetween(t: Tables, edges: seq<RowEdge>, index: RowIndex, x: Input, k: nat, c: Cursor, pos: nat, j: nat)
    requires IndexMatches(t, edges, index) && k <= j < pos <= |edges|
    requires CursorAt(index, x, k, c) && NoneBefore(index, c, pos)
    ensures edges[j].term.ElementTerm? && NamedEdge(index, x) != Some(j)
  {
    forall q | 0 <= q < |index.wildcardEdges|
      ensures index.wildcardEdges[q] != j
    {
      assert q >= c.wildcard ==> index.wildcardEdges[q] >= index.wildcardEdges[c.wildcard];
    }
    assert !edges[j].term.WildcardTerm?;
  }

  lemma NothingBetween(t: Tables, edges: seq<RowEdge>, index: RowIndex, x: Input, k: nat, c: Cursor, pos: nat)
    requires WellFormedSubstitutions(t) && IndexMatches(t, edges, index) && k <= pos <= |edges|
    requires CursorAt(index, x, k, c) && NoneBefore(index, c, pos)
    ensures Skippable(t, edges, x, k, pos)
  {
    forall j | k <= j < pos
      ensures MatchDirect(t, edges[j].term, x).Unmatched?
    {
      NoWildcardBetween(t, edges, index, x, k, c, pos, j);
      UnnamedEdge(t, edges, index, x, j);
    }
  }

  lemma TakeWildcard(t: Tables, edges: seq<RowEdge>, index: RowIndex, x: Input, k: nat, c: Cursor)
    requires IndexMatches(t, edges, index) && k <= |edges| && CursorAt(index, x, k, c)
    requires c.wildcard < |index.wildcardEdges| && (c.named.None? || index.wildcardEdges[c.wildcard] < c.named.value)
    ensures var pos := index.wildcardEdges[c.wildcard];
            k <= pos < |edges| && NoneBefore(index, c, pos) && CursorAt(index, x, pos + 1, c.(wildcard := c.wildcard + 1))
  {
    assert index.wildcardEdges[c.wildcard] in index.wildcardEdges;
  }

  lemma TakeNamed(t: Tables, edges: seq<RowEdge>, index: RowIndex, x: Input, k: nat, c: Cursor)
    requires IndexMatches(t, edges, index) && k <= |edges| && CursorAt(index, x, k, c) && c.named.Some?
    requires c.wildcard < |index.wildcardEdges| ==> index.wildcardEdges[c.wildcard] >= c.named.value
    ensures k <= c.named.value < |edges| && NoneBefore(index, c, c.named.value)
    ensures CursorAt(index, x, c.named.value + 1, c.(named := None))
  {
    assert c.named.value !in index.wildcardEdges;
  }

  /** The next candidate in edge order: the smaller of the next wildcard and the named edge. */
  method NextCandidate(t: Tables, edges: seq<RowEdge>, index: RowIndex, x: Input, c: Cursor, ghost k: nat)
    returns (pos: Option<nat>, c': Cursor)
    requires WellFormedSubstitutions(t) && IndexMatches(t, edges, index) && k <= |edges| && CursorAt(index, x, k, c)
    ensures pos.None? ==> Skippable(t, edges, x, k, |edges|)
    ensures pos.Some? ==>
              k <= pos.value < |edges| && Skippable(t, edges, x, k, pos.value) && CursorAt(index, x, pos.value + 1, c')
  {
    var wildcards := index.wildcardEdges;
    if c.wildcard < |wildcards| && (c.named.None? || wildcards[c.wildcard] < c.named.value) {
      TakeWildcard(t, edges, index, x, k, c);
      pos, c' := Some(wildcards[c.wildcard]), c.(wildcard := c.wildcard + 1);
    } else if c.named.Some? {
      TakeNamed(t, edges, index, x, k, c);
      pos, c' := c.named, c.(named := None);
    } else {
      NothingBetween(t, edges, index, x, k, c, |edges|);
      return None, c;
    }
    NothingBetween(t, edges, index, x, k, c, pos.value);
  }

  class ContentState {
    var row: nat
    var count: Uint32

    constructor (start: nat)
      ensures Now() == State(start, 0)
    {
      row, count := start, 0;
    }

    function Now(): State
      reads this
    {
      State(row, count)
    }

    /** Takes a matched edge if the counts allow it. */
    method TryEdge(rows: seq<Row>, e: RowEdge) returns (ok: bool)
      requires row < |rows| && e.to < |rows|
      modifies this
      ensures AdvanceState(rows, old(Now()), e) == if ok then Some(Now()) else None
      ensures !ok ==> Now() == old(Now())
    {
      var from, next := rows[row], rows[e.to];
      var c: Uint32 := 0;
      if from.counted && e.to == row && Some(e.term) == from.countTerm {
        if !from.unbounded && count >= from.max {
          return false;
        }
        c := count;
        if c != MAX_UINT32 {
          c := c + 1;
        }
      } else {
        if from.counted && count < from.min {
          return false;
        }
        if next.counted && Some(e.term) == next.countTerm {
          c := 1;
        }
      }
      row, count := e.to, c;
      return true;
    }

    /** Tries edge i: the step it decides, or nothing when the scan goes on. */
    method TryAt(t: Tables, rows: seq<Row>, x: Input, i: nat) returns (r: Option<Step>)
      requires row < |rows| && EdgesInRange(rows) && i < |rows[row].edges|
      modifies this
      ensures r.None? ==> Now() == old(Now()) && Scan(t, rows, old(Now()), x, i) == Scan(t, rows, old(Now()), x, i + 1)
      ensures r.Some? ==> Agrees(Scan(t, rows, old(Now()), x, i), old(Now()), r.value, Now())
    {
      var e := rows[row].edges[i];
      match MatchDirect(t, e.term, x) {
        case Invalid => return Some(StepInvalid);
        case Unmatched => return None;
        case Matched(m) =>
          var ok := TryEdge(rows, e);
          return if ok then Some(StepMatched(m)) else None;
      }
    }

    method AdvanceLinear(t: Tables, rows: seq<Row>, x: Input) returns (r: Step)
      requires row < |rows| && EdgesInRange(rows)
      modifies this
      ensures Agrees(Scan(t, rows, old(Now()), x, 0), old(Now()), r, Now())
    {
      var edges := rows[row].edges;
      for i := 0 to |edges|
        invariant Now() == old(Now())
        invariant Scan(t, rows, old(Now()), x, 0) == Scan(t, rows, old(Now()), x, i)
      {
        var tried := TryAt(t, rows, x, i);
        if tried.Some? {
          return tried.value;
        }
      }
      return StepNoMatch;
    }

    /** Tries the edge at pos after the edges from k on that cannot match. */
    method TryCandidate(t: Tables, rows: seq<Row>, x: Input, ghost k: nat, pos: nat) returns (r: Option<Step>)
      requires row < |rows| && EdgesInRange(rows) && k <= pos < |rows[row].edges|
      requires Skippable(t, rows[row].edges, x, k, pos)
      modifies this
      ensures r.None? ==> Now() == old(Now()) && Scan(t, rows, old(Now()), x, k) == Scan(t, rows, old(Now()), x, pos + 1)
      ensures r.Some? ==> Agrees(Scan(t, rows, old(Now()), x, k), old(Now()), r.value, Now())
    {
      ScanSkipsUnmatched(t, rows, Now(), x, k, pos);
      r := TryAt(t, rows, x, pos);
    }

    /** Only the listed wildcards and the named edge are tried, in edge order. */
    method AdvanceIndexed(t: Tables, rows: seq<Row>, x: Input) returns (r: Step)
      requires row < |rows| && EdgesInRange(rows) && WellFormedSubstitutions(t)
      requires IndexMatches(t, rows[row].edges, rows[row].index)
      modifies this
      ensures Agrees(Scan(t, rows, old(Now()), x, 0), old(Now()), r, Now())
    {
      var c := Cursor(NamedEdge(rows[row].index, x), 0);
      ghost var k, st, goal := 0, Now(), Scan(t, rows, Now(), x, 0);
      while true
        invariant Now() == st && k <= |rows[row].edges|
        invariant CursorAt(rows[row].index, x, k, c)
        invariant goal == Scan(t, rows, st, x, k)
        decreases |rows[row].edges| - k
      {
        var pos;
        pos, c := NextCandidate(t, rows[row].edges, rows[row].index, x, c, k);
        if pos.None? {
          ScanFails(t, rows, st, x, k);
          return StepNoMatch;
        }
        var tried := TryCandidate(t, rows, x, k, pos.value);
        if tried.Some? {
          assert Agrees(goal, st, tried.value, Now());
          return tried.value;
        }
        k := pos.value + 1;
        assert Now() == st && goal == Scan(t, rows, st, x, k);
      }
    }

    method Advance(t: Tables, rows: seq<Row>, x: Input) returns (r: Step)
      requires EdgesInRange(rows) && WellFormedSubstitutions(t)
      requires forall s :: 0 <= s < |rows| && rows[s].index.enabled ==> IndexMatches(t, rows[s].edges, rows[s].index)
      modifies this
      ensures if old(row) < |rows| then Agrees(Scan(t, rows, old(Now()), x, 0), old(Now()), r, Now())
              else r.StepInvalid? && Now() == old(Now())
    {
      if row >= |rows| {
        return StepInvalid;
      }
      if rows[row].index.enabled {
        r := AdvanceIndexed(t, rows, x);
      } else {
        r := AdvanceLinear(t, rows, x);
      }
    }
  }
}
