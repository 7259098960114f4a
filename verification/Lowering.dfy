/** Lowering: appending particles to a model under construction, flattening nested
    groups into their parent, and extending a base model. */
module Lowering {
  import opened Schema
  import opened Languages
  import opened ContentLanguage
  import opened PositionBuilder
  import opened ParticleRanges
  import opened NestedRepeats
  import opened ModelTables

  datatype AppendResult = Appended | NotAllowedInAll | RepeatsInAll

  /** What one more member does to the language of a group body. */
  ghost function Joined(kind: ModelKind, body: Lang, next: Lang): Lang {
    if kind.Choice? then body + next else Cat(body, next)
  }

  // ----- concatenating particle lists -----

  lemma {:induction false} SequenceAppend(t: Tables, ps: seq<Particle>, qs: seq<Particle>)
    requires Acyclic(t.models) && RefsInRange(t.models, ps) && RefsInRange(t.models, qs)
    ensures RefsInRange(t.models, ps + qs)
    ensures SequenceLang(t, ps + qs) == Cat(SequenceLang(t, ps), SequenceLang(t, qs))
    decreases |qs|
  {
    if qs == [] {
      assert ps + qs == ps;
      CatEpsilon(SequenceLang(t, ps));
    } else {
      var n := |qs| - 1;
      SequenceAppend(t, ps, qs[..n]);
      assert (ps + qs)[..|ps + qs| - 1] == ps + qs[..n];
      CatAssoc(SequenceLang(t, ps), SequenceLang(t, qs[..n]), ParticleLang(t, qs[n]));
    }
  }

  lemma {:induction false} ChoiceAppend(t: Tables, ps: seq<Particle>, qs: seq<Particle>)
    requires Acyclic(t.models) && RefsInRange(t.models, ps) && RefsInRange(t.models, qs)
    ensures RefsInRange(t.models, ps + qs)
    ensures ChoiceLang(t, ps + qs) == ChoiceLang(t, ps) + ChoiceLang(t, qs)
    decreases |qs|
  {
    if qs == [] {
      assert ps + qs == ps;
    } else {
      var n := |qs| - 1;
      ChoiceAppend(t, ps, qs[..n]);
      assert (ps + qs)[..|ps + qs| - 1] == ps + qs[..n];
    }
  }

  lemma SingleParticle(t: Tables, p: Particle)
    requires Acyclic(t.models) && TermInRange(t.models, p.term)
    ensures RefsInRange(t.models, [p])
    ensures SequenceLang(t, [p]) == ParticleLang(t, p)
    ensures ChoiceLang(t, [p]) == ParticleLang(t, p)
  {
    assert [p][..0] == [];
    assert SequenceLang(t, [p]) == Cat(SequenceLang(t, [p][..0]), ParticleLang(t, p));
    EpsilonCat(ParticleLang(t, p));
    assert ChoiceLang(t, [p]) == ChoiceLang(t, [p][..0]) + ParticleLang(t, p);
  }

  /** A group model under construction. */
  class GroupBuilder {
    var m: ContentModel

    constructor (kind: ModelKind, occurs: Occurrence)
      ensures m == ContentModel(kind, [], occurs, [], false)
    {
      m := ContentModel(kind, [], occurs, [], false);
    }

    /** Appends a particle. A particle that cannot occur is dropped, an xs:all group takes
        only elements that occur at most once. */
    method AppendParticle(p: Particle) returns (r: AppendResult)
      modifies this
      ensures r == if m.kind.All? && !p.term.ElementTerm? then NotAllowedInAll
                   else if m.kind.All? && (p.occurs.unbounded || p.occurs.max > 1) then RepeatsInAll
                   else Appended
      ensures m == if r.Appended? && !p.occurs.IsZero() then old(m).(particles := old(m).particles + [p]) else old(m)
    {
      if m.kind.All? && !p.term.ElementTerm? {
        return NotAllowedInAll;
      }
      if p.occurs.IsZero() {
        return Appended;
      }
      if m.kind.All? && (p.occurs.unbounded || p.occurs.max > 1) {
        return RepeatsInAll;
      }
      m := m.(particles := m.particles + [p]);
      return Appended;
    }

    /** Splices a nested group into this one when the lowering rules allow it. */
    method AppendFlattenedModelChild(ghost t: Tables, child: ContentModel) returns (done: bool)
      requires Acyclic(t.models) && RefsInRange(t.models, m.particles) && ValidModel(t, child)
      modifies this
      ensures m == old(m).(particles := m.particles) && RefsInRange(t.models, m.particles)
      ensures done <==> Flattens(m.kind, child)
      ensures done ==> m.particles == old(m.particles) + FlatParticles(m.kind, child)
      ensures done && FlattensExactly(m.kind, child) ==>
                RefsInRange(t.models, child.particles)
                && BodyLang(t, m.kind, m.particles) == Joined(m.kind, BodyLang(t, m.kind, old(m.particles)), GroupLang(t, child))
      ensures !done ==> m == old(m)
    {
      if m.kind.Choice? && child.kind.Choice? && child.occurs.IsExactlyOne() {
        FlatChoice(t, m.particles, child);
        m := m.(particles := m.particles + child.particles);
        return true;
      }
      if !m.kind.Sequence? {
        return false;
      }
      if (child.kind.Sequence? || child.kind.Choice?) && |child.particles| == 1 {
        var p := child.particles[0];
        if CanFlatten(child.occurs, p.occurs) {
          p := p.(occurs := MultiplyOccurrence(p.occurs, child.occurs));
          FlatSingle(t, m.particles, child, p);
          m := m.(particles := m.particles + [p]);
          return true;
        }
      }
      if child.kind.Sequence? && |child.particles| > 1 && child.occurs.IsExactlyOne() {
        FlatSequence(t, m.particles, child);
        m := m.(particles := m.particles + child.particles);
        return true;
      }
      return false;
    }
  }

  predicate FlattensSingle(parent: ModelKind, child: ContentModel) {
    && parent.Sequence? && (child.kind.Sequence? || child.kind.Choice?) && |child.particles| == 1
    && CanFlatten(child.occurs, child.particles[0].occurs)
  }

  predicate Flattens(parent: ModelKind, child: ContentModel) {
    || (parent.Choice? && child.kind.Choice? && child.occurs.IsExactlyOne())
    || FlattensSingle(parent, child)
    || (parent.Sequence? && child.kind.Sequence? && |child.particles| > 1 && child.occurs.IsExactlyOne())
  }

  function FlatParticles(parent: ModelKind, child: ContentModel): seq<Particle> {
    if FlattensSingle(parent, child) then
      var p := child.particles[0];
      [p.(occurs := MultiplyOccurrence(p.occurs, child.occurs))]
    else child.particles
  }

  /** Splicing is exact unless it multiplies ranges that do not multiply exactly. */
  predicate FlattensExactly(parent: ModelKind, child: ContentModel) {
    FlattensSingle(parent, child) ==> MultipliesExactly(child.occurs, child.particles[0].occurs)
  }

  lemma FlatChoice(t: Tables, ps: seq<Particle>, child: ContentModel)
    requires Acyclic(t.models) && RefsInRange(t.models, ps) && ValidModel(t, child)
    requires child.kind.Choice? && child.occurs.IsExactlyOne()
    ensures RefsInRange(t.models, child.particles) && RefsInRange(t.models, ps + child.particles)
    ensures ChoiceLang(t, ps + child.particles) == ChoiceLang(t, ps) + GroupLang(t, child)
  {
    ChoiceAppend(t, ps, child.particles);
    RepOne(ChoiceLang(t, child.particles));
  }

  lemma FlatSequence(t: Tables, ps: seq<Particle>, child: ContentModel)
    requires Acyclic(t.models) && RefsInRange(t.models, ps) && ValidModel(t, child)
    requires child.kind.Sequence? && child.occurs.IsExactlyOne()
    ensures RefsInRange(t.models, child.particles) && RefsInRange(t.models, ps + child.particles)
    ensures SequenceLang(t, ps + child.particles) == Cat(SequenceLang(t, ps), GroupLang(t, child))
  {
    SequenceAppend(t, ps, child.particles);
    RepOne(SequenceLang(t, child.particles));
  }

  lemma FlatSingle(t: Tables, ps: seq<Particle>, child: ContentModel, p: Particle)
    requires Acyclic(t.models) && RefsInRange(t.models, ps) && ValidModel(t, child)
    requires FlattensSingle(Sequence, child)
    requires p == FlatParticles(Sequence, child)[0]
    ensures RefsInRange(t.models, child.particles) && RefsInRange(t.models, ps + [p])
    ensures MultipliesExactly(child.occurs, child.particles[0].occurs) ==>
              SequenceLang(t, ps + [p]) == Cat(SequenceLang(t, ps), GroupLang(t, child))
  {
    var inner := child.particles[0];
    assert child.particles == [inner];
    SingleParticle(t, inner);
    SingleParticle(t, p);
    SequenceAppend(t, ps, [p]);
    FlattenIff(child.occurs, inner.occurs);
    assert GroupLang(t, child) == Rep(Rep(TermLang(t, inner.term), inner.occurs), child.occurs);
    assert ParticleLang(t, p) == Rep(TermLang(t, inner.term), MultiplyOccurrence(inner.occurs, child.occurs));
  }

  /** Splicing a child gives the same body as appending the particle that stands for it. */
  lemma FlattenedIsNested(t: Tables, kind: ModelKind, ps: seq<Particle>, id: nat, q: Particle)
    requires ValidTables(t) && id < |t.models| && RefsInRange(t.models, ps) && TermInRange(t.models, q.term)
    requires ParticleLang(t, q) == ModelLang(t, id)
    requires Flattens(kind, t.models[id]) && FlattensExactly(kind, t.models[id])
    ensures RefsInRange(t.models, ps + FlatParticles(kind, t.models[id])) && RefsInRange(t.models, ps + [q])
    ensures BodyLang(t, kind, ps + FlatParticles(kind, t.models[id])) == BodyLang(t, kind, ps + [q])
  {
    var child := t.models[id];
    UnfoldModel(t, id);
    SingleParticle(t, q);
    if kind.Choice? {
      FlatChoice(t, ps, child);
      ChoiceAppend(t, ps, [q]);
    } else {
      SequenceAppend(t, ps, [q]);
      FlatInSequence(t, ps, child);
    }
  }

  lemma FlatInSequence(t: Tables, ps: seq<Particle>, child: ContentModel)
    requires Acyclic(t.models) && RefsInRange(t.models, ps) && ValidModel(t, child)
    requires Flattens(Sequence, child) && FlattensExactly(Sequence, child)
    ensures RefsInRange(t.models, child.particles) && RefsInRange(t.models, ps + FlatParticles(Sequence, child))
    ensures SequenceLang(t, ps + FlatParticles(Sequence, child)) == Cat(SequenceLang(t, ps), GroupLang(t, child))
  {
    if FlattensSingle(Sequence, child) {
      FlatSingle(t, ps, child, FlatParticles(Sequence, child)[0]);
      assert FlatParticles(Sequence, child) == [FlatParticles(Sequence, child)[0]];
    } else {
      FlatSequence(t, ps, child);
    }
  }

  /** A group that cannot occur, around an unbounded particle, is flattened into a
      particle that may occur. */
  lemma ZeroGroupFlattensWrong(parent: ModelKind, e: Term)
    requires parent.Sequence?
    ensures var child := ContentModel(Sequence, [Particle(e, Occurrence(0, 0, true))], Occurrence(0, 0, false), [], false);
            && Flattens(parent, child) && !FlattensExactly(parent, child)
            && FlatParticles(parent, child) == [Particle(e, Occurrence(0, 0, true))]
  {
  }

  // ----- references to a model -----

  /** This many models more do not fit. */
  predicate Overfull(before: nat, more: nat, limit: nat) {
    more > 0 && before + more > limit
  }

  /** A model that is referenced under a range of its own is copied with the range one. */
  function Copies(m: ContentModel): nat {
    if m.occurs.IsZero() || m.occurs.IsExactlyOne() then 0 else 1
  }

  /** The particle that stands for a model: its own range around one occurrence of it. A
      model that cannot occur has none. */
  method ModelParticle(table: ModelTable, id: nat) returns (r: Outcome<Option<Particle>>)
    requires table.Valid()
    modifies table
    ensures table.Valid() && Continues(old(table.Now()), table.Now())
    ensures forall k :: 0 <= k < |old(table.models)| ==> ModelLang(table.Now(), k) == ModelLang(old(table.Now()), k)
    ensures r.Ok? ==> id < |old(table.models)|
    ensures r.Ok? ==> (r.value.None? <==> old(table.models)[id].occurs.IsZero())
    ensures r.Ok? ==> |table.models| == |old(table.models)| + Copies(old(table.models)[id])
    ensures r.Err? ==> r.error == InternalInvariant || r.error == StateLimit
    ensures r == Err(InternalInvariant) <==> id >= |old(table.models)|
    ensures r == Err(StateLimit) <==>
              id < |old(table.models)| && Overfull(|old(table.models)|, Copies(old(table.models)[id]), table.limit)
    ensures r.Ok? && r.value.Some? ==>
              && ValidParticles(table.Now(), [r.value.value]) && TermInRange(table.models, r.value.value.term)
              && r.value.value.term.ModelTerm?
              && ParticleLang(table.Now(), r.value.value) == ModelLang(old(table.Now()), id)
              && !table.models[r.value.value.term.model].kind.AnyModel?
  {
    if id >= |table.models| {
      return Err(InternalInvariant);
    }
    ghost var before := table.Now();
    var model := table.models[id];
    if model.occurs.IsZero() {
      return Ok(None);
    }
    UnfoldModel(before, id);
    var target := id;
    if model.occurs.IsExactlyOne() {
      RepOne(ModelLang(before, id));
    } else {
      var once := model.(occurs := ONE);
      var added := table.Add(once);
      if added.Err? {
        return Err(added.error);
      }
      target := added.value;
      RepOne(BodyLang(before, model.kind, model.particles));
    }
    return Ok(Some(Particle(ModelTerm(target), model.occurs)));
  }

  // ----- extension -----

  /** No particle at all: the model contributes nothing to an extension. */
  predicate HasNoParticles(m: ContentModel) {
    m.kind.EmptyModel? || (!m.kind.AnyModel? && m.particles == [])
  }

  /** A choice without alternatives that must occur: its language is empty, but it is
      treated as if it had no content. */
  predicate Hollow(m: ContentModel) {
    m.kind.Choice? && m.particles == [] && m.occurs.min > 0
  }

  lemma NoParticlesLang(t: Tables, id: nat)
    requires ValidTables(t) && id < |t.models| && HasNoParticles(t.models[id])
    ensures ModelLang(t, id) == if Hollow(t.models[id]) then EMPTY else EPSILON
  {
    var m := t.models[id];
    UnfoldModel(t, id);
    match m.kind {
      case EmptyModel =>
      case Sequence => RepOfEpsilon(m.occurs);
      case Choice => RepOfEmpty(m.occurs);
      case All =>
        NothingInAll(t);
        RepOfEpsilon(m.occurs);
    }
  }

  lemma NothingInAll(t: Tables)
    ensures AllLang(t, []) == EPSILON
  {
    var none: seq<nat> := [];
    assert Assignment(t, [], [], none) && Covers([], none);
    forall w
      ensures InAll(t, [], w) <==> w == []
    {
      if w != [] {
        forall f: seq<nat>
          ensures !Assignment(t, [], w, f)
        {
          assert |f| == |w| ==> f[0] >= 0;
        }
      }
    }
  }

  lemma {:induction false} PowerOfEpsilon(k: nat)
    ensures Power(EPSILON, k) == EPSILON
  {
    if k > 0 {
      PowerOfEpsilon(k - 1);
      EpsilonCat(EPSILON);
    }
  }

  lemma RepOfEpsilon(o: Occurrence)
    requires o.Valid()
    ensures Rep(EPSILON, o) == EPSILON
  {
    assert o.Contains(o.min);
    forall w: Word
      ensures w in Rep(EPSILON, o) <==> w == []
    {
      PowerOfEpsilon(o.min);
      if w in Rep(EPSILON, o) {
        var k: nat :| o.Contains(k) && w in Power(EPSILON, k);
        PowerOfEpsilon(k);
      }
    }
  }

  lemma CatWithEmpty(a: Lang)
    ensures Cat(EMPTY, a) == EMPTY && Cat(a, EMPTY) == EMPTY
  {
    forall w: Word
      ensures w !in Cat(EMPTY, a) && w !in Cat(a, EMPTY)
    {
      if w in Cat(EMPTY, a) {
        var u, v := CatElim(EMPTY, a, w);
      }
      if w in Cat(a, EMPTY) {
        var u, v := CatElim(a, EMPTY, w);
      }
    }
  }

  lemma PowerOfEmpty(k: nat)
    requires k > 0
    ensures Power(EMPTY, k) == EMPTY
  {
    CatWithEmpty(Power(EMPTY, k - 1));
  }

  lemma RepOfEmpty(o: Occurrence)
    requires o.Valid()
    ensures Rep(EMPTY, o) == if o.min == 0 then EPSILON else EMPTY
  {
    forall w: Word
      ensures w in Rep(EMPTY, o) <==> o.min == 0 && w == []
    {
      if w in Rep(EMPTY, o) {
        var k: nat :| o.Contains(k) && w in Power(EMPTY, k);
        if k > 0 {
          PowerOfEmpty(k);
        }
      }
      if o.min == 0 && w == [] {
        RepIntro(EMPTY, o, 0, w);
      }
    }
  }

  /** What a model adds to the sequence of an extension. The any model carries a zero
      range and adds nothing. */
  ghost function Contribution(t: Tables, id: nat): Lang
    requires Acyclic(t.models) && id < |t.models|
  {
    if t.models[id].kind.AnyModel? then EPSILON else ModelLang(t, id)
  }

  lemma ZeroContribution(t: Tables, id: nat)
    requires ValidTables(t) && id < |t.models| && t.models[id].occurs.IsZero()
    ensures Contribution(t, id) == EPSILON
  {
    UnfoldModel(t, id);
    var m := t.models[id];
    if m.kind.Sequence? || m.kind.Choice? {
      RepZero(BodyLang(t, m.kind, m.particles), m.occurs);
    }
  }

  lemma SpliceContribution(t: Tables, ps: seq<Particle>, id: nat)
    requires ValidTables(t) && id < |t.models| && RefsInRange(t.models, ps)
    requires t.models[id].kind.Sequence? && t.models[id].occurs.IsExactlyOne()
    ensures ValidParticles(t, t.models[id].particles) && RefsInRange(t.models, ps + t.models[id].particles)
    ensures SequenceLang(t, ps + t.models[id].particles) == Cat(SequenceLang(t, ps), Contribution(t, id))
  {
    UnfoldModel(t, id);
    FlatSequence(t, ps, t.models[id]);
    assert ModelLang(t, id) == GroupLang(t, t.models[id]);
  }

  /** Adds a model's content to a particle list: spliced when it is one plain sequence,
      referenced otherwise. */
  method AppendContent(table: ModelTable, ps: seq<Particle>, id: nat) returns (r: Outcome<seq<Particle>>)
    requires table.Valid() && ValidParticles(table.Now(), ps) && RefsInRange(table.models, ps) && id < |table.models|
    modifies table
    ensures table.Valid() && Continues(old(table.Now()), table.Now())
    ensures forall k :: 0 <= k < |old(table.models)| ==> ModelLang(table.Now(), k) == ModelLang(old(table.Now()), k)
    ensures r.Ok? ==> |table.models| == |old(table.models)| + Copies(old(table.models)[id])
    ensures r.Err? ==> r.error == StateLimit
    ensures r.Err? <==> Overfull(|old(table.models)|, Copies(old(table.models)[id]), table.limit)
    ensures r.Ok? ==>
              && ValidParticles(table.Now(), r.value) && RefsInRange(table.models, r.value)
              && SequenceLang(table.Now(), r.value) == Cat(SequenceLang(old(table.Now()), ps), Contribution(old(table.Now()), id))
  {
    ghost var before := table.Now();
    var m := table.models[id];
    if m.kind.Sequence? && m.occurs.IsExactlyOne() {
      SpliceContribution(before, ps, id);
      return Ok(ps + m.particles);
    }
    var p := ModelParticle(table, id);
    if p.Err? {
      return Err(p.error);
    }
    StillValid(before, table.Now(), ps);
    match p.value {
      case None =>
        ZeroContribution(before, id);
        CatEpsilon(SequenceLang(before, ps));
        return Ok(ps);
      case Some(q) =>
        AppendOne(table.Now(), ps, q);
        ReferencedKind(before, id);
        return Ok(ps + [q]);
    }
  }

  lemma StillValid(t: Tables, t': Tables, ps: seq<Particle>)
    requires Continues(t, t') && ValidParticles(t, ps) && RefsInRange(t.models, ps)
    ensures ValidParticles(t', ps) && RefsInRange(t'.models, ps)
    ensures SequenceLang(t, ps) == SequenceLang(t', ps)
  {
    ParticlesStable(t, t', ps);
  }

  lemma ReferencedKind(t: Tables, id: nat)
    requires ValidTables(t) && id < |t.models| && !t.models[id].occurs.IsZero()
    ensures Contribution(t, id) == ModelLang(t, id)
  {
  }

  lemma AppendOne(t: Tables, ps: seq<Particle>, q: Particle)
    requires Acyclic(t.models) && RefsInRange(t.models, ps) && ValidParticles(t, ps) && ValidParticles(t, [q]) && TermInRange(t.models, q.term)
    ensures RefsInRange(t.models, ps + [q]) && ValidParticles(t, ps + [q])
    ensures SequenceLang(t, ps + [q]) == Cat(SequenceLang(t, ps), ParticleLang(t, q))
  {
    assert [q][0] == q;
    SingleParticle(t, q);
    SequenceAppend(t, ps, [q]);
  }

  /** A model is copied when its mixed flag changes. */
  function MixedCopies(m: ContentModel, mixed: bool): nat {
    if m.mixed == mixed then 0 else 1
  }

  /** The same model with the requested mixed flag. */
  method ModelWithMixed(table: ModelTable, id: nat, mixed: bool) returns (r: Outcome<nat>)
    requires table.Valid() && id < |table.models| && (table.models[id].kind.AnyModel? ==> mixed)
    modifies table
    ensures table.Valid() && Continues(old(table.Now()), table.Now())
    ensures r.Ok? ==>
              && r.value < |table.models| && table.models[r.value] == old(table.models)[id].(mixed := mixed)
              && |table.models| == |old(table.models)| + MixedCopies(old(table.models)[id], mixed)
              && ModelLang(table.Now(), r.value) == ModelLang(old(table.Now()), id)
    ensures r.Err? ==> r.error == StateLimit
    ensures r.Err? <==> Overfull(|old(table.models)|, MixedCopies(old(table.models)[id], mixed), table.limit)
  {
    var model := table.models[id];
    if model.mixed == mixed {
      return Ok(id);
    }
    ghost var before := table.Now();
    var copy := model.(mixed := mixed);
    r := table.Add(copy);
    UnfoldModel(before, id);
    assert ModelLang(before, id) == GroupLang(before, model);
  }

  /** The language of an extension. */
  ghost function ExtensionLang(t: Tables, base: nat, ext: nat): Lang
    requires Acyclic(t.models) && base < |t.models| && ext < |t.models|
  {
    if HasNoParticles(t.models[base]) then ModelLang(t, ext)
    else if HasNoParticles(t.models[ext]) then ModelLang(t, base)
    else Cat(Contribution(t, base), Contribution(t, ext))
  }

  /** How many models an extension adds: the side without particles is left out, and
      otherwise the sides are joined in a new sequence. */
  function ExtensionModels(b: ContentModel, e: ContentModel): nat {
    if HasNoParticles(b) then MixedCopies(e, b.mixed || e.mixed)
    else if HasNoParticles(e) then MixedCopies(b, b.mixed || e.mixed)
    else Copies(b) + Copies(e) + 1
  }

  /** Combines base and extension content; models already in the table are untouched. It
      fails exactly for an id out of range, or when the models it adds do not fit. */
  method ExtendSequenceModel(table: ModelTable, base: Option<nat>, ext: nat) returns (r: Outcome<nat>)
    requires table.Valid() && forall i :: 0 <= i < |table.models| && table.models[i].kind.AnyModel? ==> table.models[i].mixed
    modifies table
    ensures table.Valid() && Continues(old(table.Now()), table.Now())
    ensures base.None? ==> r == Ok(ext) && table.models == old(table.models)
    ensures base.Some? && r.Ok? ==>
              && base.value < |old(table.models)| && ext < |old(table.models)| && r.value < |table.models|
              && ModelLang(table.Now(), r.value) == ExtensionLang(old(table.Now()), base.value, ext)
              && table.models[r.value].mixed == (old(table.models)[base.value].mixed || old(table.models)[ext].mixed)
              && |table.models| == |old(table.models)| + ExtensionModels(old(table.models)[base.value], old(table.models)[ext])
    ensures r.Err? ==> r.error == InternalInvariant || r.error == StateLimit
    ensures r == Err(InternalInvariant) <==>
              base.Some? && (base.value >= |old(table.models)| || ext >= |old(table.models)|)
    ensures r == Err(StateLimit) <==>
              && base.Some? && base.value < |old(table.models)| && ext < |old(table.models)|
              && Overfull(|old(table.models)|, ExtensionModels(old(table.models)[base.value], old(table.models)[ext]), table.limit)
  {
    if base.None? {
      return Ok(ext);
    }
    if base.value >= |table.models| || ext >= |table.models| {
      return Err(InternalInvariant);
    }
    var b, e := table.models[base.value], table.models[ext];
    var mixed := b.mixed || e.mixed;
    if HasNoParticles(b) {
      r := ModelWithMixed(table, ext, mixed);
      return;
    }
    if HasNoParticles(e) {
      r := ModelWithMixed(table, base.value, mixed);
      return;
    }
    r := JoinContent(table, base.value, ext, mixed);
  }

  method JoinContent(table: ModelTable, base: nat, ext: nat, mixed: bool) returns (r: Outcome<nat>)
    requires table.Valid() && base < |table.models| && ext < |table.models|
    modifies table
    ensures table.Valid() && Continues(old(table.Now()), table.Now())
    ensures r.Ok? ==>
              && r.value < |table.models| && table.models[r.value].mixed == mixed
              && ModelLang(table.Now(), r.value) ==
                 Cat(Contribution(old(table.Now()), base), Contribution(old(table.Now()), ext))
              && |table.models| == |old(table.models)| + Copies(old(table.models)[base]) + Copies(old(table.models)[ext]) + 1
    ensures r.Err? ==> r.error == StateLimit
    ensures r.Err? <==>
              Overfull(|old(table.models)|, Copies(old(table.models)[base]) + Copies(old(table.models)[ext]) + 1, table.limit)
  {
    ghost var before := table.Now();
    var first := AppendContent(table, [], base);
    if first.Err? {
      return Err(first.error);
    }
    EpsilonCat(Contribution(before, base));
    var both := AppendContent(table, first.value, ext);
    if both.Err? {
      return Err(both.error);
    }
    RepOne(SequenceLang(table.Now(), both.value));
    r := table.Add(ContentModel(Sequence, both.value, ONE, [], mixed));
  }
}
