/** The start test against the language: whatever a particle's first child can be, the
    test names it. */
module StartLanguage {
  import opened Schema
  import opened Languages
  import opened ContentLanguage
  import opened ParticleRanges
  import opened Overlap
  import opened Lowering

  lemma FirstOfPower(l: Lang, j: nat)
    requires j > 0
    ensures Power(l, j) == Cat(l, Power(l, j - 1))
  {
    PowerPlus(l, 1, j - 1);
    PowerOne(l);
  }

  /** The first nonempty piece of a repetition. */
  lemma FirstPiece(l: Lang, o: Occurrence, w: Word) returns (i: nat)
    requires o.Valid() && w in Rep(l, o) && w != []
    ensures 0 < i <= |w| && w[..i] in l && w[..i][0] == w[0]
  {
    RepByRounds(l, o, w);
    var j: nat :| Rounds(o, [] in l, j) && w in Power(NonEmpty(l), j);
    assert j > 0;
    FirstOfPower(NonEmpty(l), j);
    i :| Splits(NonEmpty(l), Power(NonEmpty(l), j - 1), w, i);
  }

  // ----- trees without an any group -----

  /** No any model stands for this term or below it: its children are not described by the
      start test. The built-in any model may still be in the table. */
  predicate AnyFree(t: Tables, term: Term)
    requires Acyclic(t.models) && TermInRange(t.models, term)
    decreases TermHeight(t.models, term), 0, 0
  {
    if term.ModelTerm? then
      ModelHeight(t.models, term.model);
      !t.models[term.model].kind.AnyModel? && AllAnyFree(t, t.models[term.model].particles)
    else true
  }

  predicate AllAnyFree(t: Tables, ps: seq<Particle>)
    requires Acyclic(t.models) && RefsInRange(t.models, ps)
    decreases Height(t.models, ps), |ps|, 1
  {
    ps == [] || (AllAnyFree(t, ps[..|ps| - 1]) && AnyFree(t, ps[|ps| - 1].term))
  }

  lemma {:induction false} AllAnyFreeIff(t: Tables, ps: seq<Particle>)
    requires Acyclic(t.models) && RefsInRange(t.models, ps)
    ensures AllAnyFree(t, ps) <==> forall i :: 0 <= i < |ps| ==> AnyFree(t, ps[i].term)
    decreases |ps|
  {
    if ps != [] {
      AllAnyFreeIff(t, ps[..|ps| - 1]);
    }
  }

  lemma AnyFreeTail(t: Tables, ps: seq<Particle>)
    requires Acyclic(t.models) && RefsInRange(t.models, ps) && ps != [] && AllAnyFree(t, ps)
    ensures AnyFree(t, ps[0].term) && AllAnyFree(t, ps[1..])
  {
    AllAnyFreeIff(t, ps);
    AllAnyFreeIff(t, ps[1..]);
  }

  /** No particle of these stands for an any model. Lowering makes no such particle. */
  predicate NoAnyReference(t: Tables, ps: seq<Particle>) {
    forall i :: 0 <= i < |ps| && ps[i].term.ModelTerm? && ps[i].term.model < |t.models| ==>
      !t.models[ps[i].term.model].kind.AnyModel?
  }

  /** In a table without such particles, whatever is not the any model itself is free of it. */
  lemma {:induction false} ReferencesAnyFree(t: Tables, ps: seq<Particle>)
    requires Acyclic(t.models) && RefsInRange(t.models, ps)
    requires forall id :: 0 <= id < |t.models| ==> NoAnyReference(t, t.models[id].particles)
    requires NoAnyReference(t, ps)
    ensures AllAnyFree(t, ps)
    decreases Height(t.models, ps), |ps|
  {
    if ps != [] {
      var last := ps[|ps| - 1].term;
      ReferencesAnyFree(t, ps[..|ps| - 1]);
      TermHeightBound(t.models, ps, |ps| - 1);
      if last.ModelTerm? {
        ModelHeight(t.models, last.model);
        ReferencesAnyFree(t, t.models[last.model].particles);
      }
    }
  }

  lemma {:induction false} LaterStart(t: Tables, kind: ModelKind, ps: seq<Particle>, k: nat, name: QName)
    requires Acyclic(t.models) && RefsInRange(t.models, ps) && k < |ps|
    requires kind.Choice? || kind.All?
    requires StartMatches(t, ps[k].term, name)
    ensures GroupStartMatches(t, kind, ps, name)
    decreases |ps|
  {
    if k > 0 {
      LaterStart(t, kind, ps[1..], k - 1, name);
    }
  }

  lemma {:induction false} ChoiceBranch(t: Tables, ps: seq<Particle>, w: Word) returns (k: nat)
    requires Acyclic(t.models) && RefsInRange(t.models, ps) && w in ChoiceLang(t, ps)
    ensures k < |ps| && w in ParticleLang(t, ps[k])
    decreases |ps|
  {
    if w in ParticleLang(t, ps[|ps| - 1]) {
      k := |ps| - 1;
    } else {
      k := ChoiceBranch(t, ps[..|ps| - 1], w);
    }
  }

  lemma SequenceFront(t: Tables, ps: seq<Particle>)
    requires Acyclic(t.models) && RefsInRange(t.models, ps) && ps != []
    ensures SequenceLang(t, ps) == Cat(ParticleLang(t, ps[0]), SequenceLang(t, ps[1..]))
  {
    assert ps == [ps[0]] + ps[1..];
    SingleParticle(t, ps[0]);
    SequenceAppend(t, [ps[0]], ps[1..]);
  }

  /** The name of a child that may come first is one the particle's term starts with. */
  lemma {:induction false} TermStarts(t: Tables, term: Term, w: Word)
    requires ValidTables(t) && TermInRange(t.models, term) && AnyFree(t, term)
    requires w in TermLang(t, term) && w != []
    ensures StartMatches(t, term, w[0].name)
    decreases TermHeight(t.models, term), 0, 0
  {
    if term.ModelTerm? {
      var m := t.models[term.model];
      ModelHeight(t.models, term.model);
      UnfoldModel(t, term.model);
      assert TermLang(t, term) == ModelLang(t, term.model);
      if !m.kind.EmptyModel? {
        var i := FirstPiece(BodyLang(t, m.kind, m.particles), m.occurs, w);
        BodyStarts(t, m.kind, m.particles, w[..i]);
      }
    } else {
      MatchStarts(t, term, w[0]);
    }
  }

  lemma {:induction false} ParticleStarts(t: Tables, ps: seq<Particle>, k: nat, w: Word)
    requires ValidTables(t) && ValidParticles(t, ps) && RefsInRange(t.models, ps) && AllAnyFree(t, ps) && k < |ps|
    requires w in ParticleLang(t, ps[k]) && w != []
    ensures StartMatches(t, ps[k].term, w[0].name)
    decreases Height(t.models, ps), |ps|, 1
  {
    TermHeightBound(t.models, ps, k);
    AllAnyFreeIff(t, ps);
    var i := FirstPiece(TermLang(t, ps[k].term), ps[k].occurs, w);
    TermStarts(t, ps[k].term, w[..i]);
  }

  lemma {:induction false} BodyStarts(t: Tables, kind: ModelKind, ps: seq<Particle>, w: Word)
    requires ValidTables(t) && ValidParticles(t, ps) && RefsInRange(t.models, ps) && AllAnyFree(t, ps)
    requires !kind.AnyModel? && w in BodyLang(t, kind, ps) && w != []
    ensures GroupStartMatches(t, kind, ps, w[0].name)
    decreases Height(t.models, ps), |ps|, 3
  {
    match kind {
      case EmptyModel =>
      case Sequence =>
        if ps != [] {
          SequenceStarts(t, ps, w);
        }
      case Choice =>
        var k := ChoiceBranch(t, ps, w);
        ParticleStarts(t, ps, k, w);
        LaterStart(t, kind, ps, k, w[0].name);
      case All =>
        var f :| Assignment(t, ps, w, f) && Covers(ps, f);
        MatchStarts(t, ps[f[0]].term, w[0]);
        LaterStart(t, kind, ps, f[0], w[0].name);
    }
  }

  lemma {:induction false} SequenceStarts(t: Tables, ps: seq<Particle>, w: Word)
    requires ValidTables(t) && ValidParticles(t, ps) && RefsInRange(t.models, ps) && AllAnyFree(t, ps) && ps != []
    requires w in SequenceLang(t, ps) && w != []
    ensures GroupStartMatches(t, Sequence, ps, w[0].name)
    decreases Height(t.models, ps), |ps|, 2
  {
    SequenceFront(t, ps);
    HeightOfTail(t.models, ps);
    AnyFreeTail(t, ps);
    var i :| Splits(ParticleLang(t, ps[0]), SequenceLang(t, ps[1..]), w, i);
    if i > 0 {
      ParticleStarts(t, ps, 0, w[..i]);
    } else {
      assert ValidParticles(t, [ps[0]]);
      ParticleEmptiableIff(t, ps[0]);
      assert w[i..] == w && ps[1..] != [];
      SequenceStarts(t, ps[1..], w);
    }
  }

  /** Two terms whose words can begin with the same child are reported as overlapping,
      nested groups included. */
  lemma CommonFirstChild(t: Tables, a: Term, b: Term, u: Word, v: Word)
    requires ValidTables(t) && TermInRange(t.models, a) && TermInRange(t.models, b) && AnyFree(t, a) && AnyFree(t, b)
    requires u in TermLang(t, a) && v in TermLang(t, b) && u != [] && v != [] && u[0] == v[0]
    ensures TermsOverlap(t, a, b)
  {
    TermStarts(t, a, u);
    TermStarts(t, b, v);
    TermsOverlapIff(t, a, b);
  }
}
