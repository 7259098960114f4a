/** Validating the children of one element: the published model, its mutable state and
    its ticks, kept in step with the word read so far. */
module ContentRuns {
  import opened Schema
  import opened ContentLanguage
  import opened CompiledRows
  import opened CountedRows
  import opened AllGroups
  import opened ContentMachines
  import opened ContentScratches
  import opened ContentCompilers

  // ----- a child that is refused stays refused -----

  ghost predicate NoContinuation(t: Tables, c: CompiledModel, u: Word)
    requires Runnable(t, c) && WellFormedRows(t, c.rows)
  {
    forall v :: !CompiledAccepts(t, c, u + v)
  }

  lemma {:induction false} RunStuck(t: Tables, rows: seq<Row>, start: nat, u: Word, v: Word)
    requires WellFormedRows(t, rows) && start < |rows| && Run(t, rows, start, u).None?
    ensures Run(t, rows, start, u + v).None?
    decreases |v|
  {
    if v == [] {
      assert u + v == u;
    } else {
      RunStuck(t, rows, start, u, v[..|v| - 1]);
      assert (u + v)[..|u + v| - 1] == u + v[..|v| - 1];
    }
  }

  lemma {:induction false} AllStuck(t: Tables, terms: seq<AllTerm>, u: Word, v: Word)
    requires AllRun(t, terms, u).None?
    ensures AllRun(t, terms, u + v).None?
    decreases |v|
  {
    if v == [] {
      assert u + v == u;
    } else {
      AllStuck(t, terms, u, v[..|v| - 1]);
      assert (u + v)[..|u + v| - 1] == u + v[..|v| - 1];
    }
  }

  lemma RefusedForGood(t: Tables, c: CompiledModel, u: Word)
    requires Runnable(t, c) && WellFormedRows(t, c.rows)
    requires c.kind.CompiledEmpty? ==> u != []
    requires c.kind.CompiledDfa? ==> Run(t, c.rows, c.start, u).None?
    requires c.kind.CompiledAll? ==> AllRun(t, c.all, u).None?
    requires !c.kind.CompiledAny?
    ensures NoContinuation(t, c, u)
  {
    forall v
      ensures !CompiledAccepts(t, c, u + v)
    {
      match c.kind {
        case CompiledDfa => RunStuck(t, c.rows, c.start, u, v);
        case CompiledAll => AllStuck(t, c.all, u, v);
        case _ =>
      }
    }
  }

  lemma OneMore(u: Word, x: Input)
    ensures (u + [x])[..|u + [x]| - 1] == u && (u + [x])[|u + [x]| - 1] == x
  {
  }

  lemma {:induction false} TicksBounded(t: Tables, terms: seq<AllTerm>, w: Word)
    requires AllRun(t, terms, w).Some?
    ensures forall i :: i in AllRun(t, terms, w).value ==> i < |terms|
    decreases |w|
  {
    if w != [] {
      TicksBounded(t, terms, w[..|w| - 1]);
    }
  }

  lemma {:induction false} FirstFreeValid(t: Tables, terms: seq<AllTerm>, seen: set<nat>, x: Input, i: nat)
    requires i <= |terms| && forall j :: 0 <= j < |terms| ==> ValidTerm(t, terms[j].term)
    ensures !FirstFree(t, terms, seen, x, i).AllInvalid?
    decreases |terms| - i
  {
    if i < |terms| {
      FirstFreeValid(t, terms, seen, x, i + 1);
    }
  }

  /** Under an any model a child is what a lax wildcard would make of it. */
  function MatchAny(t: Tables, x: Input): (m: ContentMatch)
    ensures ReportsWildcard(t, Lax, x, m)
  {
    if x.known && x.name in t.globals then ContentMatch(Some(t.globals[x.name]), false, false) else NO_MATCH
  }

  // ----- what a step reports -----

  /** The step from u by x was by this edge of the current row. */
  ghost predicate StepByEdge(t: Tables, c: CompiledModel, u: Word, x: Input, st: State, j: nat, m: ContentMatch)
    requires WellFormedRows(t, c.rows) && c.start < |c.rows|
  {
    && Run(t, c.rows, c.start, u) == Some(st) && st.row < |c.rows| && j < |c.rows[st.row].edges|
    && (exists st' :: Takes(t, c.rows, st, c.rows[st.row].edges[j], x, st') && Run(t, c.rows, c.start, u + [x]) == Some(st'))
    && Reports(t, c.rows[st.row].edges[j].term, x, m)
  }

  /** The step from u by x ticked this term. */
  ghost predicate StepByTerm(t: Tables, c: CompiledModel, u: Word, x: Input, i: nat, m: ContentMatch) {
    && i < |c.all| && AllRun(t, c.all, u).Some? && i !in AllRun(t, c.all, u).value
    && AllRun(t, c.all, u + [x]) == Some(AllRun(t, c.all, u).value + {i})
    && TermMatches(t, c.all[i].term, x) && Reports(t, c.all[i].term, x, m)
  }

  /** The step reports what the term it was made by says about the child. */
  ghost predicate Reported(t: Tables, c: CompiledModel, u: Word, x: Input, m: ContentMatch)
    requires Runnable(t, c) && WellFormedRows(t, c.rows)
  {
    match c.kind
    case CompiledEmpty => false
    case CompiledAny => ReportsWildcard(t, Lax, x, m)
    case CompiledAll => exists i :: StepByTerm(t, c, u, x, i, m)
    case CompiledDfa => exists st, j :: StepByEdge(t, c, u, x, st, j, m)
  }

  class ContentRun {
    const t: Tables
    const c: CompiledModel
    const state: ContentState
    const scratch: ContentScratch
    ghost var read: Word

    /** A fresh run: the start row, and a window of cleared words for the ticks. */
    constructor (t: Tables, c: CompiledModel)
      requires Runnable(t, c) && WellFormedRows(t, c.rows)
      ensures this.t == t && this.c == c && Valid() && read == []
      ensures fresh(state) && fresh(scratch) && fresh(scratch.bits)
    {
      var bits := new bv64[c.allBitLen](_ => 0);
      this.t, this.c := t, c;
      state := new ContentState(c.start);
      scratch := new ContentScratch(bits, 0, c.allBitLen);
      read := [];
      new;
      forall i
        ensures !scratch.Seen(i)
      {
        var place := scratch.AllBit(i);
        if place.Some? {
          assert scratch.bits[place.value.word] == 0;
        }
      }
      assert scratch.SeenSet(|c.all|) == {};
    }

    /** The state is the one the machine's specification reaches on what was read. */
    ghost predicate Valid()
      reads this, state, scratch, scratch.bits
    {
      && Runnable(t, c) && WellFormedRows(t, c.rows)
      && match c.kind
         case CompiledEmpty => read == []
         case CompiledAny => true
         case CompiledAll => scratch.Fits(|c.all|) && AllRun(t, c.all, read) == Some(scratch.SeenSet(|c.all|))
         case CompiledDfa => Run(t, c.rows, c.start, read) == Some(state.Now())
    }

    /** Offers the next child. An accepted child is reported as the term that took it says.
        A refused child leaves the run unchanged, and no word that begins with what was read
        and that child is accepted. */
    method AdvanceContent(x: Input) returns (r: Step)
      requires Valid()
      modifies this`read, state, scratch.bits
      ensures Valid()
      ensures r.StepMatched? ==> read == old(read) + [x] && Reported(t, c, old(read), x, r.m)
      ensures !r.StepMatched? ==> read == old(read) && NoContinuation(t, c, read + [x])
      ensures r.StepInvalid? ==> c.kind.CompiledEmpty?
    {
      OneMore(read, x);
      match c.kind {
        case CompiledAny =>
          read := read + [x];
          return StepMatched(MatchAny(t, x));
        case CompiledAll =>
          r := AdvanceAllContent(x);
        case CompiledDfa =>
          r := AdvanceDfaContent(x);
        case CompiledEmpty =>
          RefusedForGood(t, c, read + [x]);
          return StepInvalid;
      }
    }

    method AdvanceAllContent(x: Input) returns (r: Step)
      requires Valid() && c.kind.CompiledAll?
      modifies this`read, scratch.bits
      ensures Valid() && !r.StepInvalid?
      ensures r.StepMatched? ==> read == old(read) + [x] && Reported(t, c, old(read), x, r.m)
      ensures !r.StepMatched? ==> read == old(read) && NoContinuation(t, c, read + [x])
    {
      OneMore(read, x);
      ghost var move := FirstFree(t, c.all, scratch.SeenSet(|c.all|), x, 0);
      FirstFreeValid(t, c.all, scratch.SeenSet(|c.all|), x, 0);
      r := scratch.AdvanceAll(t, c.all, x);
      if r.StepMatched? {
        assert StepByTerm(t, c, read, x, move.i, r.m);
        read := read + [x];
      } else {
        assert AllRun(t, c.all, read + [x]).None?;
        RefusedForGood(t, c, read + [x]);
        assert scratch.SeenSet(|c.all|) == old(scratch.SeenSet(|c.all|));
      }
    }

    method AdvanceDfaContent(x: Input) returns (r: Step)
      requires Valid() && c.kind.CompiledDfa?
      modifies this`read, state
      ensures Valid() && !r.StepInvalid?
      ensures r.StepMatched? ==> read == old(read) + [x] && Reported(t, c, old(read), x, r.m)
      ensures !r.StepMatched? ==> read == old(read) && NoContinuation(t, c, read + [x])
    {
      OneMore(read, x);
      ghost var before := state.Now();
      ScanTakes(t, c.rows, state.Now(), x, 0);
      r := state.Advance(t, c.rows, x);
      if r.StepMatched? {
        ghost var j := ScanReports(t, c.rows, before, x, 0);
        assert StepByEdge(t, c, read, x, before, j, r.m);
        read := read + [x];
      } else {
        assert Run(t, c.rows, c.start, read + [x]).None?;
        RefusedForGood(t, c, read + [x]);
      }
    }

    /** The element may end exactly when what was read is accepted. */
    method CompleteContent() returns (done: bool)
      requires Valid()
      ensures done <==> CompiledAccepts(t, c, read)
    {
      match c.kind {
        case CompiledEmpty => return true;
        case CompiledAny => return true;
        case CompiledAll =>
          var ok;
          done, ok := scratch.CompleteAll(c.all, c.empty);
        case CompiledDfa =>
          if state.row >= |c.rows| {
            return false;
          }
          var row := c.rows[state.row];
          return row.accept && (!row.counted || state.count >= row.min);
      }
    }
  }
}
