/** Growing the table of content models: a model may refer to the models before it,
    and adding one never changes the language of another. */
module ModelTables {
  import opened Schema
  import opened Languages
  import opened ContentLanguage
  import opened PositionBuilder

  lemma AppendAcyclic(models: seq<ContentModel>, m: ContentModel)
    requires Acyclic(models) && RefsInRange(models, m.particles)
    ensures Acyclic(models + [m])
  {
    var rank := Rank(models);
    var all := models + [m];
    var rank' := rank + [Height(models, m.particles)];
    forall i, j | 0 <= i < |all| && 0 <= j < |all[i].particles|
      ensures RefBelow(all, rank', all[i].particles[j].term, rank'[i])
    {
      if i < |models| {
        assert RefBelow(models, rank, models[i].particles[j].term, rank[i]);
      } else {
        TermHeightBound(models, m.particles, j);
      }
    }
    assert Ranked(all, rank');
  }

  /** The second table continues the first. */
  ghost predicate Continues(t: Tables, t': Tables) {
    t' == t.(models := t'.models) && t.models <= t'.models && Acyclic(t.models) && Acyclic(t'.models)
  }

  lemma AllLangStable(t: Tables, t': Tables, ps: seq<Particle>)
    requires Continues(t, t')
    ensures AllLang(t, ps) == AllLang(t', ps)
    ensures forall term :: LeafLang(t, term) == LeafLang(t', term)
  {
    assert forall term: Term, x :: TermMatches(t, term, x) == TermMatches(t', term, x);
    assert forall w, f :: Assignment(t, ps, w, f) == Assignment(t', ps, w, f);
    forall w
      ensures InAll(t, ps, w) == InAll(t', ps, w)
    {
    }
    forall term
      ensures LeafLang(t, term) == LeafLang(t', term)
    {
    }
  }

  lemma {:induction false} TermLangStable(t: Tables, t': Tables, term: Term)
    requires Continues(t, t') && TermInRange(t.models, term)
    ensures TermLang(t, term) == TermLang(t', term)
    decreases TermHeight(t.models, term), 0, 0
  {
    if term.ModelTerm? {
      ModelHeight(t.models, term.model);
      ModelHeight(t'.models, term.model);
      assert t.models[term.model] == t'.models[term.model];
      GroupLangStable(t, t', t.models[term.model]);
    } else {
      AllLangStable(t, t', []);
    }
  }

  lemma {:induction false} ParticlesStable(t: Tables, t': Tables, ps: seq<Particle>)
    requires Continues(t, t') && RefsInRange(t.models, ps) && RefsInRange(t'.models, ps)
    ensures SequenceLang(t, ps) == SequenceLang(t', ps)
    ensures ChoiceLang(t, ps) == ChoiceLang(t', ps)
    decreases Height(t.models, ps), |ps|, 2
  {
    if ps != [] {
      ParticlesStable(t, t', ps[..|ps| - 1]);
      TermLangStable(t, t', ps[|ps| - 1].term);
    }
  }

  lemma {:induction false} GroupLangStable(t: Tables, t': Tables, m: ContentModel)
    requires Continues(t, t') && RefsInRange(t.models, m.particles) && RefsInRange(t'.models, m.particles)
    ensures BodyLang(t, m.kind, m.particles) == BodyLang(t', m.kind, m.particles)
    ensures GroupLang(t, m) == GroupLang(t', m)
    decreases Height(t.models, m.particles), |m.particles|, 4
  {
    ParticlesStable(t, t', m.particles);
    AllLangStable(t, t', m.particles);
  }

  /** The compiler's table of models, appended to under a limit. */
  class ModelTable {
    const names: Tables
    const limit: nat
    var models: seq<ContentModel>

    constructor (t: Tables, limit: nat)
      requires ValidTables(t)
      ensures Valid() && Now() == t && this.limit == limit && models == t.models && names == t
    {
      names, this.limit, models := t, limit, t.models;
    }

    function Now(): Tables
      reads this
    {
      names.(models := models)
    }

    ghost predicate Valid()
      reads this
    {
      ValidTables(Now())
    }

    /** Appends a model; every earlier model keeps its language. */
    method Add(m: ContentModel) returns (r: Outcome<nat>)
      requires Valid() && ValidModel(Now(), m)
      modifies this
      ensures Valid() && Continues(old(Now()), Now())
      ensures r.Ok? ==> r.value == |old(models)| && models == old(models) + [m]
      ensures r.Ok? ==> RefsInRange(old(models), m.particles) && ModelLang(Now(), r.value) == GroupLang(old(Now()), m)
      ensures r.Err? ==> r.error == StateLimit && models == old(models)
      ensures r.Err? <==> |old(models)| >= limit
      ensures forall id :: 0 <= id < |old(models)| ==> ModelLang(Now(), id) == ModelLang(old(Now()), id)
    {
      ghost var before := Now();
      if |models| >= limit {
        return Err(StateLimit);
      }
      AppendAcyclic(models, m);
      models := models + [m];
      forall id | 0 <= id < |before.models|
        ensures ModelLang(Now(), id) == ModelLang(before, id)
      {
        TermLangStable(before, Now(), ModelTerm(id));
      }
      AddedLang(before, Now(), m);
      return Ok(|models| - 1);
    }
  }

  lemma AddedLang(t: Tables, t': Tables, m: ContentModel)
    requires Continues(t, t') && t'.models == t.models + [m] && RefsInRange(t.models, m.particles)
    ensures ModelLang(t', |t.models|) == GroupLang(t, m)
  {
    ModelHeight(t'.models, |t.models|);
    assert t'.models[|t.models|] == m;
    GroupLangStable(t, t', m);
  }
}
