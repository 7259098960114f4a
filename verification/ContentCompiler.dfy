/** Compiling and running a content model end to end: whatever path compilation takes,
    the published machine accepts exactly the model's language. */
module ContentCompilers {
  import opened Schema
  import opened Languages
  import opened ContentLanguage
  import opened PositionBuilder
  import opened DfaBuilding
  import opened DfaCompilers
  import opened DirectModels
  import opened CountedRows
  import opened CompiledRows
  import opened RowIndexes
  import opened AllGroups
  import opened Overlap
  import opened StateSpaces
  import opened ContentMachines
  import opened ContentScratches

  datatype CompiledKind = CompiledEmpty | CompiledAny | CompiledAll | CompiledDfa

  datatype CompiledModel = CompiledModel(
    kind: CompiledKind, rows: seq<Row>, all: seq<AllTerm>, start: nat, allBitLen: nat, mixed: bool, empty: bool)

  // ----- what a compiled model accepts -----

  /** Published tables that can be run without checks. */
  ghost predicate Runnable(t: Tables, c: CompiledModel) {
    match c case CompiledModel(kind, rows, all, start, bitLen, _, _) =>
      && WellFormedSubstitutions(t)
      && (kind.CompiledDfa? ==>
            && start < |rows| && WellFormedRows(t, rows)
            && forall s :: 0 <= s < |rows| && rows[s].index.enabled ==> IndexMatches(t, rows[s].edges, rows[s].index))
      && (kind.CompiledAll? ==> |all| <= 64 * bitLen && forall i :: 0 <= i < |all| ==> ValidTerm(t, all[i].term))
  }

  predicate CompiledAccepts(t: Tables, c: CompiledModel, w: Word)
    requires WellFormedRows(t, c.rows) && (c.kind.CompiledDfa? ==> c.start < |c.rows|)
  {
    match c.kind
    case CompiledEmpty => w == []
    case CompiledAny => true
    case CompiledAll => AllAccepts(t, c.all, c.empty, w)
    case CompiledDfa => RunAccepts(t, c.rows, c.start, w)
  }

  ghost predicate Exact(t: Tables, c: CompiledModel, l: Lang) {
    match c case CompiledModel(_, rows, _, _, _, _, empty) =>
      && Runnable(t, c) && WellFormedRows(t, rows)
      && (forall w :: CompiledAccepts(t, c, w) <==> w in l)
      && (empty <==> [] in l)
  }

  // ----- compiling -----

  /** Builds the optional name index of every row; the other rows keep the empty index. */
  method IndexRows(t: Tables, rows: seq<Row>) returns (r: Outcome<seq<Row>>)
    ensures r.Ok? ==>
              && |r.value| == |rows|
              && forall s :: 0 <= s < |rows| ==>
                   && r.value[s].(index := rows[s].index) == rows[s]
                   && (r.value[s].index.enabled ==> IndexMatches(t, r.value[s].edges, r.value[s].index))
    ensures r.Err? ==> r.error == InternalInvariant && !WellFormedRows(t, rows)
  {
    var out := rows;
    for s := 0 to |rows|
      invariant |out| == |rows|
      invariant forall k :: 0 <= k < s ==>
                  && out[k].(index := rows[k].index) == rows[k]
                  && (out[k].index.enabled ==> IndexMatches(t, out[k].edges, out[k].index))
      invariant forall k :: s <= k < |rows| ==> out[k] == rows[k]
    {
      var indexing := IndexCompiledRow(t, rows[s]);
      match indexing {
        case Indexed(index) => out := out[s := rows[s].(index := index)];
        case Unindexed => out := out[s := rows[s].(index := NO_INDEX)];
        case Broken(_) => return Err(InternalInvariant);
      }
    }
    return Ok(out);
  }

  /** Indexes leave the language alone. */
  lemma IndexedAccepts(t: Tables, rows: seq<Row>, rows': seq<Row>, start: nat, w: Word)
    requires |rows'| == |rows|
    requires forall s :: 0 <= s < |rows| ==> rows'[s].(index := rows[s].index) == rows[s]
    ensures RowsAccept(t, rows', start, w) <==> RowsAccept(t, rows, start, w)
  {
    if RowsAccept(t, rows', start, w) {
      var st :| RowReach(t, rows', start, w, st) && st.row < |rows'| && Completes(rows', st);
      ReachSameMoves(t, rows', rows, start, w, st);
      assert Completes(rows, st);
    }
    if RowsAccept(t, rows, start, w) {
      var st :| RowReach(t, rows, start, w, st) && st.row < |rows| && Completes(rows, st);
      ReachSameMoves(t, rows, rows', start, w, st);
      assert Completes(rows', st);
    }
  }

  lemma IndexedCompiles(t: Tables, d: DfaRows, rows': seq<Row>, l: Lang)
    requires Compiles(t, d, l) && |rows'| == |d.rows|
    requires forall s :: 0 <= s < |d.rows| ==> rows'[s].(index := d.rows[s].index) == d.rows[s]
    ensures Compiles(t, DfaRows(rows', d.start), l)
  {
    forall w
      ensures RowsAccept(t, rows', d.start, w) <==> w in l
    {
      IndexedAccepts(t, d.rows, rows', d.start, w);
    }
    forall s | 0 <= s < |rows'|
      ensures EdgesApart(t, s, rows'[s])
    {
      assert EdgesApart(t, s, d.rows[s]);
    }
  }

  function DfaModel(d: DfaRows, mixed: bool): CompiledModel
    requires d.start < |d.rows|
  {
    CompiledModel(CompiledDfa, d.rows, [], d.start, 0, mixed, d.rows[d.start].accept)
  }

  lemma DfaIsExact(t: Tables, d: DfaRows, mixed: bool, l: Lang)
    requires Compiles(t, d, l) && WellFormedSubstitutions(t)
    requires forall s :: 0 <= s < |d.rows| && d.rows[s].index.enabled ==> IndexMatches(t, d.rows[s].edges, d.rows[s].index)
    ensures Exact(t, DfaModel(d, mixed), l)
  {
    forall w
      ensures RunAccepts(t, d.rows, d.start, w) <==> w in l
    {
      RunAcceptsIff(t, d.rows, d.start, w);
    }
    assert RunAccepts(t, d.rows, d.start, []) <==> d.rows[d.start].accept;
  }

  lemma {:induction false} AllIsExact(t: Tables, m: ContentModel, c: CompiledModel)
    requires ValidTables(t) && ValidModel(t, m) && m.kind.All? && ParticlesApart(t, m.particles)
    requires c.kind.CompiledAll? && c.rows == [] && c.all == AllTermsOf(m.particles) && |c.all| <= 64 * c.allBitLen
    requires c.empty == (m.occurs.min == 0 || NoneRequired(m.particles))
    ensures RefsInRange(t.models, m.particles) && Exact(t, c, GroupLang(t, m))
  {
    forall w
      ensures CompiledAccepts(t, c, w) <==> w in GroupLang(t, m)
    {
      AllAcceptsIff(t, m.particles, m.occurs, w);
    }
    assert CompiledAccepts(t, c, []) <==> c.empty;
  }

  // ----- how compilation can be refused -----

  function ErrorOf<T>(r: Outcome<T>): Option<CompileError> {
    match r
    case Ok(_) => None
    case Err(e) => Some(e)
  }

  /** Direct compilation settles it: the model occurs once and, before any group, either
      rows run out or the particles do. */
  ghost predicate GoesDirect(m: ContentModel, limit: nat) {
    m.occurs.IsExactlyOne() && (NoGroups(m.particles) || TooManyRows(Limited(m).particles, limit))
  }

  ghost predicate DirectRefusal(t: Tables, m: ContentModel, limit: nat, e: Option<CompileError>)
    requires Acyclic(t.models)
  {
    var ps := Limited(m).particles;
    && (e == Some(StateLimit) <==> TooManyRows(ps, limit))
    && (e == Some(UpaViolation) <==> !TooManyRows(ps, limit) && FlatAmbiguous(t, m.kind, ps))
    && (e.None? || e == Some(StateLimit) || e == Some(UpaViolation))
  }

  ghost predicate AutomatonRefusal(t: Tables, id: nat, limit: nat, trace: Trace, e: Option<CompileError>)
    requires ValidTables(t) && id < |t.models|
  {
    if SupportedTerm(t, ModelTerm(id)) then
      && Traces(t, trace, ScopedLang(t, t.models[id], RootScope, t.models[id].choiceLimits), TermLeaves(t, ModelTerm(id)), limit)
      && (e == Some(StateLimit) <==> TooManyStates(t, trace, limit))
      && (e == Some(UpaViolation) <==> Ambiguous(t, trace, limit))
      && (e.None? || e == Some(StateLimit) || e == Some(UpaViolation))
    else e == Some(UnsupportedModel)
  }

  /** Each outcome of compiling a sequence or choice has its exact cause: on the direct path
      in the particles, otherwise in the position automaton of the tree. */
  ghost predicate RefusedRightly(t: Tables, id: nat, limit: nat, trace: Trace, e: Option<CompileError>)
    requires ValidTables(t) && id < |t.models|
  {
    match trace case _ =>
      if GoesDirect(t.models[id], limit) then DirectRefusal(t, t.models[id], limit, e)
      else AutomatonRefusal(t, id, limit, trace, e)
  }

  /** An xs:all is refused when two of its terms overlap, or when it has more terms than
      published bits can count. */
  ghost predicate AllRefusal(t: Tables, m: ContentModel, e: Option<CompileError>)
    requires Acyclic(t.models)
  {
    if !ParticlesApart(t, m.particles) then e == Some(UpaViolation)
    else if |m.particles| > 64 * MAX_UINT32 then e == Some(StateLimit)
    else e == None
  }

  lemma SameTerms(m: ContentModel)
    ensures NoGroups(Limited(m).particles) <==> NoGroups(m.particles)
    ensures Labels(Limited(m).particles) == Labels(m.particles)
  {
    assert forall i :: 0 <= i < |m.particles| ==> Limited(m).particles[i].term == m.particles[i].term;
  }

  /** A sequence or choice that occurs once and holds no groups needs no automaton. */
  method CompileDirect(t: Tables, m: ContentModel, limit: nat) returns (r: Outcome<Option<DfaRows>>)
    requires ValidTables(t) && ValidModel(t, m) && (m.kind.Sequence? || m.kind.Choice?)
    ensures r.Ok? && r.value.Some? ==>
              Compiles(t, r.value.value, ScopedLang(t, m, RootScope, m.choiceLimits)) && NoGroups(m.particles)
    ensures r == Ok(None) <==> !GoesDirect(m, limit)
    ensures GoesDirect(m, limit) ==> DirectRefusal(t, m, limit, ErrorOf(r))
    ensures r == Err(UpaViolation) ==> NoGroups(m.particles) && !LeavesApart(t, Labels(m.particles))
  {
    if !m.occurs.IsExactlyOne() {
      return Ok(None);
    }
    SameTerms(m);
    if m.kind.Sequence? {
      r := CompileDirectSequence(t, m, m.choiceLimits, limit);
    } else {
      NoLimits(m);
      r := CompileDirectChoice(t, m, limit);
    }
    if LeavesApart(t, Labels(Limited(m).particles)) {
      ApartNotAmbiguous(t, m.kind, Limited(m).particles);
    }
    if r.Ok? && r.value.Some? {
      LimitKeepsRefs(t, m, m.choiceLimits);
      OneOccurrence(t, m);
    }
  }

  lemma OneOccurrence(t: Tables, m: ContentModel)
    requires ValidTables(t) && ValidModel(t, m) && (m.kind.Sequence? || m.kind.Choice?) && m.occurs.IsExactlyOne()
    requires RefsInRange(t.models, LimitParticles(m.particles, m.choiceLimits))
    ensures ScopedLang(t, m, RootScope, m.choiceLimits) ==
            if m.kind.Sequence? then SequenceLang(t, LimitParticles(m.particles, m.choiceLimits))
            else ChoiceLang(t, LimitParticles(m.particles, m.choiceLimits))
  {
    LimitKeepsRefs(t, m, m.choiceLimits);
    ScopedIsRepeat(t, m, RootScope, m.choiceLimits);
    RepOne(BodyLang(t, m.kind, LimitParticles(m.particles, m.choiceLimits)));
  }

  method CompileRows(t: Tables, id: nat, limit: nat) returns (r: Outcome<DfaRows>, ghost trace: Trace)
    requires ValidTables(t) && id < |t.models| && (t.models[id].kind.Sequence? || t.models[id].kind.Choice?)
    ensures r.Ok? ==> Compiles(t, r.value, ScopedLang(t, t.models[id], RootScope, t.models[id].choiceLimits))
    ensures r.Ok? ==> SupportedTerm(t, ModelTerm(id))
    ensures RefusedRightly(t, id, limit, trace, ErrorOf(r))
    ensures r == Err(UpaViolation) ==> !LeavesApart(t, TermLeaves(t, ModelTerm(id)))
  {
    trace := *;
    var direct := CompileDirect(t, t.models[id], limit);
    if direct == Ok(None) {
      r, trace := CompileDfa(t, id, t.models[id].choiceLimits, limit);
    } else {
      r := DirectResult(t, id, limit, direct);
    }
  }

  /** What direct compilation has settled. */
  method DirectResult(t: Tables, id: nat, limit: nat, direct: Outcome<Option<DfaRows>>) returns (r: Outcome<DfaRows>)
    requires ValidTables(t) && id < |t.models| && (t.models[id].kind.Sequence? || t.models[id].kind.Choice?)
    requires direct != Ok(None) && DirectRefusal(t, t.models[id], limit, ErrorOf(direct))
    requires direct.Ok? ==> NoGroups(t.models[id].particles)
                            && Compiles(t, direct.value.value, ScopedLang(t, t.models[id], RootScope, t.models[id].choiceLimits))
    requires direct == Err(UpaViolation) ==>
               NoGroups(t.models[id].particles) && !LeavesApart(t, Labels(t.models[id].particles))
    ensures r.Ok? ==> Compiles(t, r.value, ScopedLang(t, t.models[id], RootScope, t.models[id].choiceLimits))
    ensures r.Ok? ==> SupportedTerm(t, ModelTerm(id))
    ensures DirectRefusal(t, t.models[id], limit, ErrorOf(r))
    ensures r == Err(UpaViolation) ==> !LeavesApart(t, TermLeaves(t, ModelTerm(id)))
  {
    ModelHeight(t.models, id);
    if NoGroups(t.models[id].particles) {
      NoGroupsSupported(t, t.models[id].particles);
      LeavesOfNoGroups(t, t.models[id].particles);
    }
    match direct {
      case Err(e) => return Err(e);
      case Ok(d) => return Ok(d.value);
    }
  }

  method CompileRowModel(t: Tables, id: nat, limit: nat) returns (r: Outcome<CompiledModel>, ghost trace: Trace)
    requires ValidTables(t) && id < |t.models| && (t.models[id].kind.Sequence? || t.models[id].kind.Choice?)
    ensures r.Ok? ==> Exact(t, r.value, ScopedLang(t, t.models[id], RootScope, t.models[id].choiceLimits))
                      && r.value.mixed == t.models[id].mixed
    ensures r.Ok? ==> SupportedTerm(t, ModelTerm(id))
    ensures RefusedRightly(t, id, limit, trace, ErrorOf(r))
    ensures r == Err(UpaViolation) ==> !LeavesApart(t, TermLeaves(t, ModelTerm(id)))
  {
    var d;
    d, trace := CompileRows(t, id, limit);
    if d.Err? {
      r := Err(d.error);
      return;
    }
    var rows := IndexRows(t, d.value.rows);
    if rows.Err? {
      r := Err(InternalInvariant);
      return;
    }
    ghost var l := ScopedLang(t, t.models[id], RootScope, t.models[id].choiceLimits);
    var indexed := DfaRows(rows.value, d.value.start);
    IndexedCompiles(t, d.value, rows.value, l);
    DfaIsExact(t, indexed, t.models[id].mixed, l);
    r := Ok(DfaModel(indexed, t.models[id].mixed));
  }

  /** The main result of compilation: a compiled model accepts exactly the language of
      the tree it was compiled from, with the root's choice limits applied. */
  method CompileContentModel(t: Tables, id: nat, limit: nat) returns (r: Outcome<CompiledModel>, ghost trace: Trace)
    requires ValidTables(t)
    ensures r.Ok? ==>
              && id < |t.models| && RefsInRange(t.models, Limited(t.models[id]).particles)
              && Exact(t, r.value, GroupLang(t, Limited(t.models[id]))) && r.value.mixed == t.models[id].mixed
    ensures id >= |t.models| ==> r == Err(InternalInvariant)
    ensures id < |t.models| && (t.models[id].kind.EmptyModel? || t.models[id].kind.AnyModel?) ==> r.Ok?
    ensures id < |t.models| && t.models[id].kind.All? ==> AllRefusal(t, t.models[id], ErrorOf(r))
    ensures id < |t.models| && (t.models[id].kind.Sequence? || t.models[id].kind.Choice?) ==>
              && RefusedRightly(t, id, limit, trace, ErrorOf(r))
              && (r.Ok? ==> SupportedTerm(t, ModelTerm(id)))
              && (r == Err(UpaViolation) ==> !LeavesApart(t, TermLeaves(t, ModelTerm(id))))
  {
    trace := *;
    if id >= |t.models| {
      r := Err(InternalInvariant);
      return;
    }
    var m := t.models[id];
    LimitKeepsRefs(t, m, m.choiceLimits);
    match m.kind {
      case EmptyModel =>
        r := Ok(CompiledModel(CompiledEmpty, [], [], 0, 0, m.mixed, true));
      case AnyModel =>
        r := Ok(CompiledModel(CompiledAny, [], [], 0, 0, m.mixed, true));
      case All =>
        NoLimits(m);
        r := CompileAllModel(t, m);
      case _ =>
        r, trace := CompileRowModel(t, id, limit);
    }
  }

  method CompileAllModel(t: Tables, m: ContentModel) returns (r: Outcome<CompiledModel>)
    requires ValidTables(t) && ValidModel(t, m) && m.kind.All?
    ensures r.Ok? ==> RefsInRange(t.models, m.particles) && Exact(t, r.value, GroupLang(t, m)) && r.value.mixed == m.mixed
    ensures AllRefusal(t, m, ErrorOf(r))
  {
    var all := CompileAll(t, m);
    if all.Err? {
      return Err(all.error);
    }
    var c := CompiledModel(CompiledAll, [], all.value.terms, 0, all.value.bitLen, m.mixed, all.value.empty);
    AllIsExact(t, m, c);
    return Ok(c);
  }

  // ----- a refusal without a cause -----

  /** A choice of `##other` and of the list (`##local`, the same namespace). */
  function FalseAlarmTables(): Tables {
    Tables([], [], [Wildcard(OtherNamespace("urn:t"), Skip), Wildcard(NamespaceList(["", "urn:t"]), Skip)], map[],
           [ContentModel(Choice, [Particle(WildcardTerm(0), ONE), Particle(WildcardTerm(1), ONE)], ONE, [], false)])
  }

  lemma FalseAlarmValid()
    ensures ValidTables(FalseAlarmTables())
    ensures FlatAmbiguous(FalseAlarmTables(), Choice, FalseAlarmTables().models[0].particles)
    ensures forall x :: !(TermMatches(FalseAlarmTables(), WildcardTerm(0), x) && TermMatches(FalseAlarmTables(), WildcardTerm(1), x))
  {
    var t := FalseAlarmTables();
    assert Ranked(t.models, [0]);
    FalseAlarmExample();
    assert TermsOverlap(t, WildcardTerm(0), WildcardTerm(1));
    assert Competes(t, Choice, t.models[0].particles, 0, 1);
  }

  lemma TwoRowsFit(ps: seq<Particle>, limit: nat)
    requires |ps| == 2 && limit >= 3
    ensures !TooManyRows(ps, limit)
  {
    forall n: nat
      ensures !NoRowFor(ps, limit, n)
    {
      if n == 1 {
        OccurringNext(ps, 0);
        assert ps[..0] == [];
      }
    }
  }

  /** A flat model with competing particles is refused for them when its rows fit. */
  ghost predicate FlatCompeting(t: Tables, id: nat, limit: nat)
    requires Acyclic(t.models)
  {
    match id case _ =>
      && id < |t.models| && (t.models[id].kind.Sequence? || t.models[id].kind.Choice?)
      && t.models[id].occurs.IsExactlyOne() && NoGroups(t.models[id].particles)
      && !TooManyRows(Limited(t.models[id]).particles, limit)
      && FlatAmbiguous(t, t.models[id].kind, Limited(t.models[id]).particles)
  }

  method RefuseCompeting(t: Tables, id: nat, limit: nat) returns (r: Outcome<CompiledModel>)
    requires ValidTables(t) && FlatCompeting(t, id, limit)
    ensures r == Err(UpaViolation)
  {
    ghost var trace;
    r, trace := CompileContentModel(t, id, limit);
    assert GoesDirect(t.models[id], limit);
  }

  lemma FalseAlarmCompetes(limit: nat)
    requires limit >= 3
    ensures ValidTables(FalseAlarmTables()) && FlatCompeting(FalseAlarmTables(), 0, limit)
  {
    FalseAlarmValid();
    NoLimits(FalseAlarmTables().models[0]);
    TwoRowsFit(FalseAlarmTables().models[0].particles, limit);
  }

  /** Whatever the limit, compilation refuses this choice as ambiguous, although no child
      matches both alternatives. */
  method FalseAlarmRefused(limit: nat) returns (r: Outcome<CompiledModel>)
    requires limit >= 3
    ensures r == Err(UpaViolation)
    ensures forall x :: !(TermMatches(FalseAlarmTables(), WildcardTerm(0), x) && TermMatches(FalseAlarmTables(), WildcardTerm(1), x))
  {
    FalseAlarmValid();
    FalseAlarmCompetes(limit);
    r := RefuseCompeting(FalseAlarmTables(), 0, limit);
  }
}
