/** The capped-counter subset construction: a deterministic row stands for a set of
    configurations, and accepts what some uncapped configuration accepts. */
module SubsetRows {
  import opened Schema
  import opened Languages
  import opened PositionAutomaton
  import opened PositionBuilder
  import opened SourceRows
  import opened CappedCounters
  import opened CompiledRows
  import opened ContentLanguage
  import opened Overlap

  datatype Config = Config(state: nat, counters: Counters)

  /** One enabled source edge out of a configuration, read on capped counters. */
  ghost predicate Moves(srows: seq<SourceRow>, caps: Counters, from: Config, e: SourceEdge, to: Config) {
    && from.state < |srows| && |from.counters| == |caps| && e in srows[from.state].edges
    && GuardsOk(from.counters, caps, e.guards)
    && to.state == e.to && ApplyCapped(from.counters, caps, e.actions) == Some(to.counters)
  }

  ghost predicate MovesOn(srows: seq<SourceRow>, caps: Counters, configs: seq<Config>, term: Term, to: Config) {
    exists from, e :: from in configs && Moves(srows, caps, from, e, to) && e.term == term
  }

  ghost predicate ConfigEnds(srows: seq<SourceRow>, caps: Counters, c: Config) {
    c.state < |srows| && exists g :: g in srows[c.state].accept && GuardsOk(c.counters, caps, g)
  }

  /** Every configuration is in range and its enabled edges act on real counters. */
  ghost predicate ConfigsOk(srows: seq<SourceRow>, caps: Counters, configs: seq<Config>) {
    forall c :: c in configs ==>
      && c.state < |srows| && |c.counters| == |caps|
      && forall e :: e in srows[c.state].edges && GuardsOk(c.counters, caps, e.guards) ==>
           ApplyCapped(c.counters, caps, e.actions).Some?
  }

  ghost predicate DetRowFor(row: Row, configs: seq<Config>, srows: seq<SourceRow>, caps: Counters, order: seq<seq<Config>>) {
    && ConfigsOk(srows, caps, configs)
    && !row.counted
    && (row.accept <==> exists c :: c in configs && ConfigEnds(srows, caps, c))
    && (forall d :: d in row.edges ==>
          && d.to < |order|
          && forall to :: to in order[d.to] <==> MovesOn(srows, caps, configs, d.term, to))
    && (forall term, to :: MovesOn(srows, caps, configs, term, to) ==> exists d :: d in row.edges && d.term == term)
  }

  datatype SubsetCase = SubsetCase(
    t: Tables, srows: seq<SourceRow>, sstart: nat, caps: Counters,
    order: seq<seq<Config>>, rows: seq<Row>, start: nat)

  ghost predicate SubsetBuilt(b: SubsetCase) {
    && b.start < |b.order| == |b.rows|
    && (forall i :: 0 <= i < |b.srows| ==> RowCapped(b.caps, b.srows[i]))
    && (forall c :: c in b.order[b.start] <==> c == Config(b.sstart, Zeros(|b.caps|)))
    && (forall i :: 0 <= i < |b.rows| ==> DetRowFor(b.rows[i], b.order[i], b.srows, b.caps, b.order))
  }

  type Subset = b: SubsetCase | SubsetBuilt(b) ghost witness SubsetWitness()

  ghost function SubsetWitness(): (b: SubsetCase)
    ensures SubsetBuilt(b)
  {
    var srows := [SourceRow([], [])];
    var b := SubsetCase(Tables([], [], [], map[], []), srows, 0, [], [[Config(0, [])]], [PLAIN_ROW], 0);
    assert Zeros(0) == [];
    b
  }

  lemma MoveIsStep(b: Subset, s: nat, c: Counters, e: SourceEdge, to: Config)
    requires s < |b.srows| && |c| == |b.caps|
    requires Moves(b.srows, b.caps, Config(s, Capped(c, b.caps)), e, to)
    ensures Enabled(c, e.guards) && to == Config(e.to, Capped(Apply(c, e.actions), b.caps))
  {
    assert RowCapped(b.caps, b.srows[s]);
    CappedGuards(c, b.caps, e.guards);
    CappedActions(c, b.caps, e.actions);
  }

  lemma StepIsMove(b: Subset, r: nat, s: nat, c: Counters, e: SourceEdge) returns (to: Config)
    requires r < |b.order| && s < |b.srows| && |c| == |b.caps|
    requires Config(s, Capped(c, b.caps)) in b.order[r]
    requires e in b.srows[s].edges && Enabled(c, e.guards)
    ensures Moves(b.srows, b.caps, Config(s, Capped(c, b.caps)), e, to)
    ensures to == Config(e.to, Capped(Apply(c, e.actions), b.caps))
  {
    assert RowCapped(b.caps, b.srows[s]);
    assert DetRowFor(b.rows[r], b.order[r], b.srows, b.caps, b.order);
    CappedGuards(c, b.caps, e.guards);
    CappedActions(c, b.caps, e.actions);
    to := Config(e.to, Capped(Apply(c, e.actions), b.caps));
  }

  lemma ZerosCapped(caps: Counters)
    ensures Capped(Zeros(|caps|), caps) == Zeros(|caps|)
  {
  }

  lemma {:induction false} SourceReachLength(t: Tables, srows: seq<SourceRow>, start: nat, k: nat, w: Word, s: nat, c: Counters)
    requires SourceReach(t, srows, start, k, w, s, c)
    ensures |c| == k
    decreases |w|
  {
    if w != [] {
      var n := |w| - 1;
      assert SourceReachThen(t, srows, start, k, w[..n], w[n], s, c);
      var r: nat, d, e :| SourceReach(t, srows, start, k, w[..n], r, d) && SourceStep(t, srows, r, d, e, w[n], s, c);
      SourceReachLength(t, srows, start, k, w[..n], r, d);
    }
  }

  /** Every configuration of a reachable row is the capped image of a reachable one. */
  lemma {:induction false} SubsetSound(b: Subset, w: Word, st: State, cfg: Config) returns (c: Counters)
    requires RowReach(b.t, b.rows, b.start, w, st)
    requires st.row < |b.order| && cfg in b.order[st.row]
    ensures SourceReach(b.t, b.srows, b.sstart, |b.caps|, w, cfg.state, c)
    ensures |c| == |b.caps| && cfg.counters == Capped(c, b.caps)
    decreases |w|
  {
    if w == [] {
      c := Zeros(|b.caps|);
      ZerosCapped(b.caps);
    } else {
      var n := |w| - 1;
      assert RowReachThen(b.t, b.rows, b.start, w[..n], w[n], st);
      var prev, d :| RowReach(b.t, b.rows, b.start, w[..n], prev) && Takes(b.t, b.rows, prev, d, w[n], st);
      assert DetRowFor(b.rows[prev.row], b.order[prev.row], b.srows, b.caps, b.order);
      assert MovesOn(b.srows, b.caps, b.order[prev.row], d.term, cfg);
      var from, e :| from in b.order[prev.row] && Moves(b.srows, b.caps, from, e, cfg) && e.term == d.term;
      var c' := SubsetSound(b, w[..n], prev, from);
      MoveIsStep(b, from.state, c', e, cfg);
      c := Apply(c', e.actions);
      assert SourceStep(b.t, b.srows, from.state, c', e, w[n], cfg.state, c);
      assert SourceReachThen(b.t, b.srows, b.sstart, |b.caps|, w[..n], w[n], cfg.state, c);
    }
  }

  /** Every reachable configuration is, capped, in some reachable row. */
  lemma {:induction false} SubsetComplete(b: Subset, w: Word, s: nat, c: Counters) returns (r: nat)
    requires SourceReach(b.t, b.srows, b.sstart, |b.caps|, w, s, c)
    ensures RowReach(b.t, b.rows, b.start, w, State(r, 0)) && r < |b.order|
    ensures |c| == |b.caps| && Config(s, Capped(c, b.caps)) in b.order[r]
    decreases |w|
  {
    SourceReachLength(b.t, b.srows, b.sstart, |b.caps|, w, s, c);
    if w == [] {
      r := b.start;
      ZerosCapped(b.caps);
    } else {
      var n := |w| - 1;
      assert SourceReachThen(b.t, b.srows, b.sstart, |b.caps|, w[..n], w[n], s, c);
      var s': nat, d, e :| SourceReach(b.t, b.srows, b.sstart, |b.caps|, w[..n], s', d) && SourceStep(b.t, b.srows, s', d, e, w[n], s, c);
      var r' := SubsetComplete(b, w[..n], s', d);
      r := ConfigStep(b, w[..n], r', s', d, e, w[n], s, c);
    }
  }

  lemma ConfigStep(b: Subset, u: Word, r: nat, s: nat, d: Counters, e: SourceEdge, x: Input, to: nat, c: Counters) returns (r': nat)
    requires RowReach(b.t, b.rows, b.start, u, State(r, 0)) && r < |b.order| && |d| == |b.caps|
    requires Config(s, Capped(d, b.caps)) in b.order[r] && SourceStep(b.t, b.srows, s, d, e, x, to, c)
    ensures RowReachThen(b.t, b.rows, b.start, u, x, State(r', 0))
    ensures r' < |b.order| && |c| == |b.caps| && Config(to, Capped(c, b.caps)) in b.order[r']
  {
    var next := StepIsMove(b, r, s, d, e);
    r' := RowStep(b, u, r, Config(s, Capped(d, b.caps)), e, next, x);
  }

  lemma {:induction false} RowStep(b: Subset, u: Word, r: nat, from: Config, e: SourceEdge, to: Config, x: Input) returns (r': nat)
    requires RowReach(b.t, b.rows, b.start, u, State(r, 0)) && r < |b.order|
    requires from in b.order[r] && Moves(b.srows, b.caps, from, e, to) && TermMatches(b.t, e.term, x)
    ensures RowReachThen(b.t, b.rows, b.start, u, x, State(r', 0))
    ensures r' < |b.order| && to in b.order[r']
  {
    assert DetRowFor(b.rows[r], b.order[r], b.srows, b.caps, b.order);
    assert MovesOn(b.srows, b.caps, b.order[r], e.term, to);
    var d :| d in b.rows[r].edges && d.term == e.term;
    r' := d.to;
    assert DetRowFor(b.rows[r'], b.order[r'], b.srows, b.caps, b.order);
    assert Takes(b.t, b.rows, State(r, 0), d, x, State(r', 0));
  }

  /** The deterministic rows accept exactly what the source rows accept. */
  lemma SubsetAcceptsIff(b: Subset, w: Word)
    ensures RowsAccept(b.t, b.rows, b.start, w) <==> SourceAccepts(b.t, b.srows, b.sstart, |b.caps|, w)
  {
    if RowsAccept(b.t, b.rows, b.start, w) {
      var st :| RowReach(b.t, b.rows, b.start, w, st) && st.row < |b.rows| && Completes(b.rows, st);
      assert DetRowFor(b.rows[st.row], b.order[st.row], b.srows, b.caps, b.order);
      var cfg :| cfg in b.order[st.row] && ConfigEnds(b.srows, b.caps, cfg);
      var c := SubsetSound(b, w, st, cfg);
      ConfigEndsIff(b, cfg.state, c);
    }
    if SourceAccepts(b.t, b.srows, b.sstart, |b.caps|, w) {
      var s: nat, c :| SourceReach(b.t, b.srows, b.sstart, |b.caps|, w, s, c) && SourceEnds(b.srows, s, c);
      var r := SubsetComplete(b, w, s, c);
      ConfigEndsIff(b, s, c);
      assert DetRowFor(b.rows[r], b.order[r], b.srows, b.caps, b.order);
      assert Completes(b.rows, State(r, 0));
    }
  }

  lemma ConfigEndsIff(b: Subset, s: nat, c: Counters)
    requires |c| == |b.caps|
    ensures ConfigEnds(b.srows, b.caps, Config(s, Capped(c, b.caps))) <==> SourceEnds(b.srows, s, c)
  {
    if s < |b.srows| {
      assert RowCapped(b.caps, b.srows[s]);
      forall g | g in b.srows[s].accept
        ensures GuardsOk(Capped(c, b.caps), b.caps, g) <==> Enabled(c, g)
      {
        CappedGuards(c, b.caps, g);
      }
    }
  }

  /** On a table without ambiguity, after any word the current row stands for exactly
      the capped images of the configurations reachable on that word. */
  lemma SubsetExact(b: Subset, w: Word, st: State, cfg: Config)
    requires Acyclic(b.t.models) && WellFormedSubstitutions(b.t) && UpaClean(b.t, b.rows) && WellFormedRows(b.t, b.rows)
    requires Run(b.t, b.rows, b.start, w) == Some(st)
    ensures cfg in b.order[st.row] <==>
            exists c :: |c| == |b.caps| && SourceReach(b.t, b.srows, b.sstart, |b.caps|, w, cfg.state, c)
                        && cfg.counters == Capped(c, b.caps)
  {
    RunIsReach(b.t, b.rows, b.start, w, st);
    if cfg in b.order[st.row] {
      var c := SubsetSound(b, w, st, cfg);
    }
    if c :| |c| == |b.caps| && SourceReach(b.t, b.srows, b.sstart, |b.caps|, w, cfg.state, c)
            && cfg.counters == Capped(c, b.caps) {
      var r := SubsetComplete(b, w, cfg.state, c);
      RunIsReach(b.t, b.rows, b.start, w, State(r, 0));
    }
  }
}
