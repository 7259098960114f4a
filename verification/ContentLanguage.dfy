/** The meaning of a content-model table: the language of child sequences each
    model accepts. Group references must be acyclic for a model to have one. */
module ContentLanguage {
  import opened Schema
  import opened Languages

  // ----- acyclic tables -----

  ghost predicate Ranked(models: seq<ContentModel>, rank: seq<nat>) {
    && |rank| == |models|
    && forall i, j :: 0 <= i < |models| && 0 <= j < |models[i].particles| ==>
         RefBelow(models, rank, models[i].particles[j].term, rank[i])
  }

  ghost predicate RefBelow(models: seq<ContentModel>, rank: seq<nat>, term: Term, bound: nat)
    requires |rank| == |models|
  {
    term.ModelTerm? ==> term.model < |models| && rank[term.model] < bound
  }

  ghost predicate Acyclic(models: seq<ContentModel>) {
    exists rank: seq<nat> :: Ranked(models, rank)
  }

  ghost function Rank(models: seq<ContentModel>): (rank: seq<nat>)
    requires Acyclic(models)
    ensures Ranked(models, rank)
  {
    var rank :| Ranked(models, rank); rank
  }

  predicate RefsInRange(models: seq<ContentModel>, ps: seq<Particle>) {
    forall i :: 0 <= i < |ps| ==> TermInRange(models, ps[i].term)
  }

  predicate TermInRange(models: seq<ContentModel>, term: Term) {
    term.ModelTerm? ==> term.model < |models|
  }

  /** One more than the largest rank a term refers to. */
  ghost function TermHeight(models: seq<ContentModel>, term: Term): nat
    requires Acyclic(models) && TermInRange(models, term)
  {
    if term.ModelTerm? then Rank(models)[term.model] + 1 else 0
  }

  ghost function Height(models: seq<ContentModel>, ps: seq<Particle>): nat
    requires Acyclic(models) && RefsInRange(models, ps)
  {
    if ps == [] then 0
    else
      var rest := Height(models, ps[..|ps| - 1]);
      var last := TermHeight(models, ps[|ps| - 1].term);
      if rest < last then last else rest
  }

  lemma {:induction false} HeightBound(models: seq<ContentModel>, ps: seq<Particle>, bound: nat)
    requires Acyclic(models)
    requires forall i :: 0 <= i < |ps| ==> RefBelow(models, Rank(models), ps[i].term, bound)
    ensures RefsInRange(models, ps)
    ensures Height(models, ps) <= bound
  {
    if ps != [] {
      HeightBound(models, ps[..|ps| - 1], bound);
      assert RefBelow(models, Rank(models), ps[|ps| - 1].term, bound);
    }
  }

  lemma {:induction false} TermHeightBound(models: seq<ContentModel>, ps: seq<Particle>, i: nat)
    requires Acyclic(models) && RefsInRange(models, ps) && i < |ps|
    ensures TermHeight(models, ps[i].term) <= Height(models, ps)
    decreases |ps|
  {
    if i < |ps| - 1 {
      TermHeightBound(models, ps[..|ps| - 1], i);
    }
  }

  lemma ModelHeight(models: seq<ContentModel>, id: nat)
    requires Acyclic(models) && id < |models|
    ensures RefsInRange(models, models[id].particles)
    ensures Height(models, models[id].particles) <= Rank(models)[id]
  {
    HeightBound(models, models[id].particles, Rank(models)[id]);
  }

  // ----- languages -----

  /** A child order for an xs:all group: each child takes a term of its own. */
  ghost predicate Assignment(t: Tables, ps: seq<Particle>, w: Word, f: seq<nat>) {
    && |f| == |w|
    && (forall i :: 0 <= i < |f| ==> f[i] < |ps| && TermMatches(t, ps[f[i]].term, w[i]))
    && (forall i, j :: 0 <= i < j < |f| ==> f[i] != f[j])
  }

  ghost predicate Covers(ps: seq<Particle>, f: seq<nat>) {
    forall k :: 0 <= k < |ps| && ps[k].occurs.min > 0 ==> k in f
  }

  ghost predicate InAll(t: Tables, ps: seq<Particle>, w: Word) {
    exists f :: Assignment(t, ps, w, f) && Covers(ps, f)
  }

  ghost function AllLang(t: Tables, ps: seq<Particle>): Lang {
    iset w: Word | InAll(t, ps, w)
  }

  ghost function LeafLang(t: Tables, term: Term): Lang {
    iset w: Word | |w| == 1 && TermMatches(t, term, w[0])
  }

  ghost function TermLang(t: Tables, term: Term): Lang
    requires Acyclic(t.models) && TermInRange(t.models, term)
    decreases TermHeight(t.models, term), 0, 0
  {
    if term.ModelTerm? then
      ModelHeight(t.models, term.model);
      GroupLang(t, t.models[term.model])
    else LeafLang(t, term)
  }

  ghost function ParticleLang(t: Tables, p: Particle): Lang
    requires Acyclic(t.models) && TermInRange(t.models, p.term)
    decreases TermHeight(t.models, p.term), 0, 1
  {
    Rep(TermLang(t, p.term), p.occurs)
  }

  ghost function SequenceLang(t: Tables, ps: seq<Particle>): Lang
    requires Acyclic(t.models) && RefsInRange(t.models, ps)
    decreases Height(t.models, ps), |ps|, 2
  {
    if ps == [] then EPSILON
    else Cat(SequenceLang(t, ps[..|ps| - 1]), ParticleLang(t, ps[|ps| - 1]))
  }

  ghost function ChoiceLang(t: Tables, ps: seq<Particle>): Lang
    requires Acyclic(t.models) && RefsInRange(t.models, ps)
    decreases Height(t.models, ps), |ps|, 2
  {
    if ps == [] then EMPTY
    else ChoiceLang(t, ps[..|ps| - 1]) + ParticleLang(t, ps[|ps| - 1])
  }

  /** One occurrence of a group. */
  ghost function BodyLang(t: Tables, kind: ModelKind, ps: seq<Particle>): Lang
    requires Acyclic(t.models) && RefsInRange(t.models, ps)
    decreases Height(t.models, ps), |ps|, 3
  {
    match kind
    case EmptyModel => EPSILON
    case AnyModel => iset w: Word | |w| >= 0
    case Sequence => SequenceLang(t, ps)
    case Choice => ChoiceLang(t, ps)
    case All => AllLang(t, ps)
  }

  /** The empty and any models carry an inactive occurrence range. */
  ghost function GroupLang(t: Tables, m: ContentModel): Lang
    requires Acyclic(t.models) && RefsInRange(t.models, m.particles)
    decreases Height(t.models, m.particles), |m.particles|, 4
  {
    if m.kind.EmptyModel? || m.kind.AnyModel? then BodyLang(t, m.kind, m.particles)
    else Rep(BodyLang(t, m.kind, m.particles), m.occurs)
  }

  ghost function ModelLang(t: Tables, id: nat): Lang
    requires Acyclic(t.models) && id < |t.models|
  {
    TermLang(t, ModelTerm(id))
  }

  lemma UnfoldModel(t: Tables, id: nat)
    requires ValidTables(t) && id < |t.models|
    ensures var m := t.models[id];
            && RefsInRange(t.models, m.particles)
            && ModelLang(t, id) ==
               if m.kind.EmptyModel? || m.kind.AnyModel? then BodyLang(t, m.kind, m.particles)
               else Rep(BodyLang(t, m.kind, m.particles), m.occurs)
  {
    ModelHeight(t.models, id);
    assert ModelLang(t, id) == GroupLang(t, t.models[id]);
  }

  // ----- limits on a restricted repeated choice -----

  function SaturatingUint32(n: int): Uint32 {
    if n < 0 || n > MAX_UINT32 then MAX_UINT32 else n
  }

  /** A particle that restricts a repeated choice is capped at one occurrence. */
  function ApplyRepeatedChoiceLimit(p: Particle, index: nat, limits: seq<Uint32>): Particle {
    if SaturatingUint32(index) !in limits || p.occurs.min > 1 then p
    else if p.occurs.unbounded || p.occurs.max > 1 then p.(occurs := Occurrence(p.occurs.min, 1, false))
    else p
  }

  function LimitParticles(ps: seq<Particle>, limits: seq<Uint32>): (r: seq<Particle>)
    ensures |r| == |ps|
    ensures forall i :: 0 <= i < |ps| ==> r[i] == ApplyRepeatedChoiceLimit(ps[i], i, limits)
  {
    seq(|ps|, i requires 0 <= i < |ps| => ApplyRepeatedChoiceLimit(ps[i], i, limits))
  }

  /** A listed place; places beyond 32 bits count as the last one. */
  predicate Listed(index: nat, limits: seq<Uint32>) {
    (if index > 0xFFFF_FFFF then 0xFFFF_FFFF else index) in limits
  }

  /** A particle at a listed place, unless it must occur more than once, keeps its counts
      up to one; every other particle keeps all its counts. */
  lemma LimitedCounts(p: Particle, index: nat, limits: seq<Uint32>, k: nat)
    requires p.occurs.Valid()
    ensures ApplyRepeatedChoiceLimit(p, index, limits).term == p.term
    ensures ApplyRepeatedChoiceLimit(p, index, limits).occurs.Valid()
    ensures ApplyRepeatedChoiceLimit(p, index, limits).occurs.Contains(k) <==>
            p.occurs.Contains(k) && (Listed(index, limits) && p.occurs.min <= 1 ==> k <= 1)
  {
  }

  /** The same term, with no count that p does not have. */
  ghost predicate Narrower(q: Particle, p: Particle) {
    q.term == p.term && forall k: nat :: q.occurs.Contains(k) ==> p.occurs.Contains(k)
  }

  lemma {:induction false} NarrowerSequence(t: Tables, ps: seq<Particle>, qs: seq<Particle>)
    requires Acyclic(t.models) && RefsInRange(t.models, ps) && RefsInRange(t.models, qs) && |qs| == |ps|
    requires forall i :: 0 <= i < |ps| ==> Narrower(qs[i], ps[i])
    ensures SequenceLang(t, qs) <= SequenceLang(t, ps)
    decreases |ps|
  {
    if ps != [] {
      var n := |ps| - 1;
      NarrowerSequence(t, ps[..n], qs[..n]);
      assert Narrower(qs[n], ps[n]);
      RepMonotone(TermLang(t, ps[n].term), TermLang(t, ps[n].term), qs[n].occurs, ps[n].occurs);
      CatMonotone(SequenceLang(t, qs[..n]), ParticleLang(t, qs[n]), SequenceLang(t, ps[..n]), ParticleLang(t, ps[n]));
    }
  }

  /** Limits only narrow a sequence. */
  lemma LimitsNarrow(t: Tables, ps: seq<Particle>, limits: seq<Uint32>)
    requires Acyclic(t.models) && RefsInRange(t.models, ps) && forall i :: 0 <= i < |ps| ==> ps[i].occurs.Valid()
    ensures RefsInRange(t.models, LimitParticles(ps, limits))
    ensures SequenceLang(t, LimitParticles(ps, limits)) <= SequenceLang(t, ps)
  {
    var qs := LimitParticles(ps, limits);
    forall i | 0 <= i < |ps|
      ensures Narrower(qs[i], ps[i])
    {
      forall k: nat
        ensures qs[i].occurs.Contains(k) ==> ps[i].occurs.Contains(k)
      {
        LimitedCounts(ps[i], i, limits, k);
      }
    }
    NarrowerSequence(t, ps, qs);
  }

  /** The model whose language compilation of the root promises. */
  function Limited(m: ContentModel): ContentModel {
    m.(particles := LimitParticles(m.particles, m.choiceLimits))
  }

  lemma NoLimits(m: ContentModel)
    requires m.choiceLimits == []
    ensures Limited(m) == m
  {
    assert LimitParticles(m.particles, []) == m.particles;
  }

  // ----- shapes the compiler is given -----

  predicate ValidParticles(t: Tables, ps: seq<Particle>) {
    forall i :: 0 <= i < |ps| ==>
      && ps[i].occurs.Valid()
      && match ps[i].term
         case ElementTerm(id) => id < |t.elements|
         case WildcardTerm(id) => id < |t.wildcards|
         case ModelTerm(id) => id < |t.models|
  }

  predicate ValidModel(t: Tables, m: ContentModel) {
    && ValidParticles(t, m.particles)
    && match m.kind
       case EmptyModel => m.particles == [] && m.choiceLimits == [] && m.occurs == Occurrence(0, 0, false)
       case AnyModel => m.particles == [] && m.choiceLimits == [] && m.occurs == Occurrence(0, 0, false)
       case All =>
         && m.choiceLimits == [] && m.occurs.Valid() && !m.occurs.unbounded && m.occurs.max == 1
         && forall i :: 0 <= i < |m.particles| ==>
              !m.particles[i].term.ModelTerm? && m.particles[i].occurs.max == 1 && !m.particles[i].occurs.unbounded
       case Sequence => m.occurs.Valid()
       case Choice => m.occurs.Valid() && m.choiceLimits == []
  }

  ghost predicate ValidTables(t: Tables) {
    && Acyclic(t.models)
    && WellFormedSubstitutions(t)
    && forall i :: 0 <= i < |t.models| ==> ValidModel(t, t.models[i])
  }

  // ----- what an automaton can be built for -----

  /** Groups below a sequence or choice must be sequences, choices or empty. */
  ghost predicate SupportedTerm(t: Tables, term: Term)
    requires Acyclic(t.models) && TermInRange(t.models, term)
    decreases TermHeight(t.models, term), 0, 0
  {
    if term.ModelTerm? then
      ModelHeight(t.models, term.model);
      SupportedBody(t, t.models[term.model].kind, t.models[term.model].particles)
    else true
  }

  ghost predicate SupportedParticles(t: Tables, ps: seq<Particle>)
    requires Acyclic(t.models) && RefsInRange(t.models, ps)
    decreases Height(t.models, ps), |ps|, 1
  {
    ps == [] || (SupportedParticles(t, ps[..|ps| - 1]) && SupportedTerm(t, ps[|ps| - 1].term))
  }

  ghost predicate SupportedBody(t: Tables, kind: ModelKind, ps: seq<Particle>)
    requires Acyclic(t.models) && RefsInRange(t.models, ps)
    decreases Height(t.models, ps), |ps|, 2
  {
    match kind
    case EmptyModel => true
    case Sequence => SupportedParticles(t, ps)
    case Choice => SupportedParticles(t, ps)
    case _ => false
  }

  lemma {:induction false} OneUnsupported(t: Tables, ps: seq<Particle>, i: nat)
    requires Acyclic(t.models) && RefsInRange(t.models, ps) && i < |ps| && !SupportedTerm(t, ps[i].term)
    ensures !SupportedParticles(t, ps)
    decreases |ps|
  {
    if i < |ps| - 1 {
      OneUnsupported(t, ps[..|ps| - 1], i);
    }
  }

  lemma SupportedPrefix(t: Tables, ps: seq<Particle>, i: nat)
    requires Acyclic(t.models) && RefsInRange(t.models, ps) && i < |ps|
    ensures RefsInRange(t.models, ps[..i]) && RefsInRange(t.models, ps[..i + 1])
    ensures SupportedParticles(t, ps[..i + 1]) <==> SupportedParticles(t, ps[..i]) && SupportedTerm(t, ps[i].term)
    ensures ParticleLeaves(t, ps[..i + 1]) == ParticleLeaves(t, ps[..i]) + TermLeaves(t, ps[i].term)
  {
    assert ps[..i + 1][..i] == ps[..i];
  }

  // ----- the leaves of a tree -----

  /** The element and wildcard terms of a tree, in document order; a group that is
      referred to twice contributes twice. */
  ghost function TermLeaves(t: Tables, term: Term): seq<Term>
    requires Acyclic(t.models) && TermInRange(t.models, term)
    decreases TermHeight(t.models, term), 0, 0
  {
    if term.ModelTerm? then
      ModelHeight(t.models, term.model);
      BodyLeaves(t, t.models[term.model].kind, t.models[term.model].particles)
    else [term]
  }

  ghost function ParticleLeaves(t: Tables, ps: seq<Particle>): seq<Term>
    requires Acyclic(t.models) && RefsInRange(t.models, ps)
    decreases Height(t.models, ps), |ps|, 1
  {
    if ps == [] then [] else ParticleLeaves(t, ps[..|ps| - 1]) + TermLeaves(t, ps[|ps| - 1].term)
  }

  ghost function BodyLeaves(t: Tables, kind: ModelKind, ps: seq<Particle>): seq<Term>
    requires Acyclic(t.models) && RefsInRange(t.models, ps)
    decreases Height(t.models, ps), |ps|, 2
  {
    match kind
    case Sequence => ParticleLeaves(t, ps)
    case Choice => ParticleLeaves(t, ps)
    case _ => []
  }
}
