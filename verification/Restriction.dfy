/** Restriction of groups by mapping derived particles to base particles: what the
    order-preserving and the injective check accept is an inclusion of languages,
    provided that each accepted pair of particles is. */
module Restrictions {
  import opened Schema
  import opened Languages
  import opened ContentLanguage
  import opened ParticleRanges
  import opened AllGroups
  import opened Overlap
  import opened StartLanguage

  /** The verdict on one pair: base particle, derived particle. */
  datatype Verdict = Accepts | Mismatch | Unsupported | Broken

  type PairCheck = (Particle, Particle) -> Verdict

  ghost predicate PairSound(t: Tables, check: PairCheck)
    requires Acyclic(t.models)
  {
    forall b: Particle, d: Particle ::
      check(b, d) == Accepts && TermInRange(t.models, b.term) && TermInRange(t.models, d.term) ==>
        ParticleLang(t, d) <= ParticleLang(t, b)
  }

  // ----- mappings -----

  /** Derived particle j goes to base particle g[j]; base particles left out are emptiable. */
  ghost predicate Maps(t: Tables, check: PairCheck, bs: seq<Particle>, ds: seq<Particle>, g: seq<nat>)
    requires Acyclic(t.models)
  {
    && |g| == |ds|
    && (forall j :: 0 <= j < |g| ==> g[j] < |bs| && check(bs[g[j]], ds[j]) == Accepts)
    && (forall i, j :: 0 <= i < j < |g| ==> g[i] != g[j])
    && (forall k: nat :: k < |bs| ==> TakenOrEmptiable(t, bs, g, k))
  }

  ghost predicate TakenOrEmptiable(t: Tables, bs: seq<Particle>, g: seq<nat>, k: nat)
    requires Acyclic(t.models)
  {
    k < |bs| && k !in g ==> ParticleEmptiable(t, bs[k])
  }

  ghost predicate InOrder(g: seq<nat>) {
    forall i, j :: 0 <= i < j < |g| ==> g[i] < g[j]
  }

  /** The setting of an inclusion proof: both particle lists make sense, and each derived
      particle has a place that includes it. */
  ghost predicate Placed(t: Tables, bs: seq<Particle>, ds: seq<Particle>, g: seq<nat>) {
    match t case Tables(_, _, _, _, models) =>
      && ValidTables(t) && ValidParticles(t, bs) && RefsInRange(models, bs) && RefsInRange(models, ds)
      && |g| == |ds|
      && (forall j :: 0 <= j < |g| ==> g[j] < |bs| && ParticleLang(t, ds[j]) <= ParticleLang(t, bs[g[j]]))
      && (forall i, j :: 0 <= i < j < |g| ==> g[i] != g[j])
  }

  lemma MapsPlaces(t: Tables, check: PairCheck, bs: seq<Particle>, ds: seq<Particle>, g: seq<nat>)
    requires ValidTables(t) && PairSound(t, check) && ValidParticles(t, bs)
    requires RefsInRange(t.models, bs) && RefsInRange(t.models, ds) && Maps(t, check, bs, ds, g)
    ensures Placed(t, bs, ds, g) && LeftOutEmptiable(t, bs, g)
  {
    forall k: nat | k < |bs| && k !in g
      ensures ParticleEmptiable(t, bs[k])
    {
      assert TakenOrEmptiable(t, bs, g, k);
    }
    forall j | 0 <= j < |g|
      ensures ParticleLang(t, ds[j]) <= ParticleLang(t, bs[g[j]])
    {
      assert check(bs[g[j]], ds[j]) == Accepts;
    }
  }

  lemma PlacedPrefix(t: Tables, bs: seq<Particle>, ds: seq<Particle>, g: seq<nat>)
    requires Placed(t, bs, ds, g) && ds != []
    ensures Placed(t, bs, ds[..|ds| - 1], g[..|g| - 1])
    ensures g[|g| - 1] !in g[..|g| - 1]
  {
  }

  lemma SnocMembers(g: seq<nat>)
    requires g != []
    ensures forall x :: x in g <==> x in g[..|g| - 1] || x == g[|g| - 1]
  {
    assert g == g[..|g| - 1] + [g[|g| - 1]];
  }

  // ----- sequences -----

  ghost predicate LeftOutEmptiable(t: Tables, bs: seq<Particle>, g: seq<nat>)
    requires Acyclic(t.models)
  {
    forall k: nat :: k < |bs| && k !in g ==> ParticleEmptiable(t, bs[k])
  }

  lemma ShrinkBase(t: Tables, bs: seq<Particle>, ds: seq<Particle>, g: seq<nat>)
    requires bs != [] && Placed(t, bs, ds, g) && LeftOutEmptiable(t, bs, g)
    requires forall j :: 0 <= j < |g| ==> g[j] < |bs| - 1
    ensures Placed(t, bs[..|bs| - 1], ds, g) && LeftOutEmptiable(t, bs[..|bs| - 1], g)
    ensures [] in ParticleLang(t, bs[|bs| - 1])
  {
    ValidPrefix(t, bs);
    assert |bs| - 1 !in g;
    ParticleEmptiableIff(t, bs[|bs| - 1]);
  }

  lemma ShrinkBoth(t: Tables, bs: seq<Particle>, ds: seq<Particle>, g: seq<nat>)
    requires bs != [] && ds != [] && Placed(t, bs, ds, g) && LeftOutEmptiable(t, bs, g) && InOrder(g)
    requires g[|g| - 1] == |bs| - 1
    ensures Placed(t, bs[..|bs| - 1], ds[..|ds| - 1], g[..|g| - 1])
    ensures LeftOutEmptiable(t, bs[..|bs| - 1], g[..|g| - 1]) && InOrder(g[..|g| - 1])
  {
    var n, m := |bs| - 1, |g| - 1;
    PlacedPrefix(t, bs, ds, g);
    ValidPrefix(t, bs);
    SnocMembers(g);
    forall j | 0 <= j < m
      ensures g[..m][j] < n && ParticleLang(t, ds[..m][j]) <= ParticleLang(t, bs[..n][g[..m][j]])
    {
    }
  }

  lemma SomePlace(t: Tables, bs: seq<Particle>, ds: seq<Particle>, g: seq<nat>)
    requires Placed(t, bs, ds, g) && ds != []
    ensures bs != []
  {
    assert g[0] < |bs|;
  }

  lemma {:induction false} OrderedInclusion(t: Tables, bs: seq<Particle>, ds: seq<Particle>, g: seq<nat>)
    requires Placed(t, bs, ds, g) && LeftOutEmptiable(t, bs, g) && InOrder(g)
    ensures SequenceLang(t, ds) <= SequenceLang(t, bs)
    decreases |bs|
  {
    if ds != [] {
      SomePlace(t, bs, ds, g);
    }
    if bs != [] {
      var n, m := |bs| - 1, |ds| - 1;
      if m >= 0 && g[m] == n {
        ShrinkBoth(t, bs, ds, g);
        OrderedInclusion(t, bs[..n], ds[..m], g[..m]);
        CatMonotone(SequenceLang(t, ds[..m]), ParticleLang(t, ds[m]), SequenceLang(t, bs[..n]), ParticleLang(t, bs[n]));
      } else {
        assert forall j :: 0 <= j < |g| ==> g[j] <= g[m];
        ShrinkBase(t, bs, ds, g);
        OrderedInclusion(t, bs[..n], ds, g);
        SkipEmptiable(SequenceLang(t, ds), SequenceLang(t, bs[..n]), ParticleLang(t, bs[n]));
      }
    }
  }

  lemma SkipEmptiable(d: Lang, b: Lang, e: Lang)
    requires d <= b && [] in e
    ensures d <= Cat(b, e)
  {
    forall w | w in d
      ensures w in Cat(b, e)
    {
      assert w[..|w|] == w && w[|w|..] == [];
      assert Splits(b, e, w, |w|);
    }
  }

  // ----- xs:all groups -----

  predicate Once(p: Particle) {
    !p.term.ModelTerm? && p.occurs.max == 1 && !p.occurs.unbounded && p.occurs.Valid()
  }

  predicate OnceOnly(ps: seq<Particle>) {
    forall i :: 0 <= i < |ps| ==> Once(ps[i])
  }

  /** A particle that occurs at most once accepts its matches, and the empty word when it
      is optional. */
  lemma OnceLang(t: Tables, p: Particle, w: Word)
    requires Acyclic(t.models) && Once(p)
    ensures w in ParticleLang(t, p) <==> (|w| == 1 && TermMatches(t, p.term, w[0])) || (w == [] && p.occurs.min == 0)
  {
    OnceRep(LeafLang(t, p.term), p.occurs, w);
  }

  lemma OnceRep(l: Lang, o: Occurrence, w: Word)
    requires o.max == 1 && !o.unbounded && o.Valid()
    ensures w in Rep(l, o) <==> w in l || (w == [] && o.min == 0)
  {
    PowerOne(l);
    if w in Rep(l, o) {
      var k: nat :| o.Contains(k) && w in Power(l, k);
      assert k == 0 || k == 1;
    }
    if w in l {
      RepIntro(l, o, 1, w);
    }
    if w == [] && o.min == 0 {
      RepIntro(l, o, 0, w);
    }
  }

  /** What the last derived particle contributes: nothing, or one child for its place. */
  lemma TakeTerm(t: Tables, bs: seq<Particle>, w: Word, i: nat, h: seq<nat>, k: nat) returns (f: seq<nat>)
    requires Acyclic(t.models) && k < |bs| && Once(bs[k]) && i <= |w|
    requires Assignment(t, bs, w[..i], h) && k !in h && w[i..] in ParticleLang(t, bs[k])
    ensures Assignment(t, bs, w, f) && (forall x :: x in h ==> x in f) && (forall x :: x in f ==> x in h || x == k)
    ensures bs[k].occurs.min > 0 ==> k in f
  {
    OnceLang(t, bs[k], w[i..]);
    if w[i..] == [] {
      assert w[..i] == w;
      f := h;
    } else {
      assert w == w[..i] + [w[i..][0]];
      AssignmentExtend(t, bs, w[..i], w[i..][0], h, k);
      f := h + [k];
    }
  }

  ghost predicate TermsTaken(t: Tables, bs: seq<Particle>, g: seq<nat>, w: Word, f: seq<nat>) {
    && Assignment(t, bs, w, f) && (forall x :: x in f ==> x in g)
    && forall x :: x in g && x < |bs| && bs[x].occurs.min > 0 ==> x in f
  }

  lemma TakenSoFar(t: Tables, bs: seq<Particle>, ds: seq<Particle>, g: seq<nat>, w: Word, i: nat, h: seq<nat>) returns (f: seq<nat>)
    requires ds != [] && Placed(t, bs, ds, g) && OnceOnly(bs) && i <= |w|
    requires TermsTaken(t, bs, g[..|g| - 1], w[..i], h) && w[i..] in ParticleLang(t, ds[|ds| - 1])
    ensures TermsTaken(t, bs, g, w, f)
  {
    var m := |g| - 1;
    PlacedPrefix(t, bs, ds, g);
    LastPlace(t, bs, ds, g);
    f := TakeTerm(t, bs, w, i, h, g[m]);
    SnocMembers(g);
  }

  lemma LastPlace(t: Tables, bs: seq<Particle>, ds: seq<Particle>, g: seq<nat>)
    requires Placed(t, bs, ds, g) && ds != []
    ensures g[|g| - 1] < |bs| && ParticleLang(t, ds[|ds| - 1]) <= ParticleLang(t, bs[g[|g| - 1]])
  {
  }

  /** The base terms that the children of w take, when w is cut along the derived sequence. */
  lemma {:induction false} SequenceTakesTerms(t: Tables, bs: seq<Particle>, ds: seq<Particle>, g: seq<nat>, w: Word)
    returns (f: seq<nat>)
    requires Placed(t, bs, ds, g) && OnceOnly(bs) && w in SequenceLang(t, ds)
    ensures TermsTaken(t, bs, g, w, f)
    decreases |ds|
  {
    if ds == [] {
      f := [];
    } else {
      var m := |ds| - 1;
      PlacedPrefix(t, bs, ds, g);
      var i :| Splits(SequenceLang(t, ds[..m]), ParticleLang(t, ds[m]), w, i);
      var h := SequenceTakesTerms(t, bs, ds[..m], g[..m], w[..i]);
      f := TakenSoFar(t, bs, ds, g, w, i, h);
    }
  }

  lemma RequiredCovered(t: Tables, bs: seq<Particle>, g: seq<nat>, f: seq<nat>)
    requires Acyclic(t.models) && OnceOnly(bs) && LeftOutEmptiable(t, bs, g) && forall x :: x in g ==> x < |bs|
    requires forall x :: x in g && bs[x].occurs.min > 0 ==> x in f
    ensures Covers(bs, f)
  {
  }

  /** A sequence mapped into an xs:all group stays inside it. */
  lemma MappedSequenceInclusion(t: Tables, bs: seq<Particle>, ds: seq<Particle>, g: seq<nat>)
    requires Placed(t, bs, ds, g) && OnceOnly(bs) && LeftOutEmptiable(t, bs, g)
    ensures SequenceLang(t, ds) <= AllLang(t, bs)
  {
    forall w | w in SequenceLang(t, ds)
      ensures w in AllLang(t, bs)
    {
      var f := SequenceTakesTerms(t, bs, ds, g, w);
      RequiredCovered(t, bs, g, f);
    }
  }

  /** The base terms that the children of an xs:all word take. */
  lemma AllTakesTerms(t: Tables, bs: seq<Particle>, ds: seq<Particle>, g: seq<nat>, w: Word, f: seq<nat>) returns (h: seq<nat>)
    requires Placed(t, bs, ds, g) && OnceOnly(bs) && OnceOnly(ds) && Assignment(t, ds, w, f)
    ensures Assignment(t, bs, w, h) && |h| == |f| && forall i :: 0 <= i < |h| ==> h[i] == g[f[i]]
  {
    h := seq(|f|, i requires 0 <= i < |f| => g[f[i]]);
    forall i | 0 <= i < |h|
      ensures h[i] < |bs| && TermMatches(t, bs[h[i]].term, w[i])
    {
      OnceLang(t, ds[f[i]], [w[i]]);
      OnceLang(t, bs[h[i]], [w[i]]);
      assert [w[i]] in ParticleLang(t, ds[f[i]]);
    }
    forall i, j | 0 <= i < j < |h|
      ensures h[i] != h[j]
    {
      assert f[i] != f[j];
    }
  }

  /** An xs:all group mapped into an xs:all group stays inside it. */
  lemma MappedAllInclusion(t: Tables, bs: seq<Particle>, ds: seq<Particle>, g: seq<nat>)
    requires Placed(t, bs, ds, g) && OnceOnly(bs) && OnceOnly(ds) && LeftOutEmptiable(t, bs, g)
    ensures AllLang(t, ds) <= AllLang(t, bs)
  {
    forall w | w in AllLang(t, ds)
      ensures w in AllLang(t, bs)
    {
      var f :| Assignment(t, ds, w, f) && Covers(ds, f);
      var h := AllTakesTerms(t, bs, ds, g, w, f);
      forall k | k in g && bs[k].occurs.min > 0
        ensures k in h
      {
        var j :| 0 <= j < |g| && g[j] == k;
        OnceLang(t, ds[j], []);
        OnceLang(t, bs[k], []);
        assert j in f;
        var i :| 0 <= i < |f| && f[i] == j;
        assert h[i] == k;
      }
      RequiredCovered(t, bs, g, h);
    }
  }

  // ----- what the greedy checks find -----

  /** Where the search for derived particle j begins. */
  function SearchFrom(g: seq<nat>, j: nat): nat
    requires j <= |g|
  {
    if j == 0 then 0 else g[j - 1] + 1
  }

  /** Each derived particle has the first place after the previous one that accepts it. */
  ghost predicate FirstInOrder(t: Tables, check: PairCheck, bs: seq<Particle>, ds: seq<Particle>, g: seq<nat>)
    requires Acyclic(t.models)
  {
    && Maps(t, check, bs, ds, g) && InOrder(g)
    && forall j :: 0 <= j < |g| ==> FirstPlace(check, bs, ds, g, j)
  }

  ghost predicate FirstPlace(check: PairCheck, bs: seq<Particle>, ds: seq<Particle>, g: seq<nat>, j: int)
    requires |g| <= |ds|
  {
    0 <= j < |g| ==> PassedOver(check, bs, ds[j], SearchFrom(g, j), g[j])
  }

  /** None of these base particles accepts d. */
  ghost predicate PassedOver(check: PairCheck, bs: seq<Particle>, d: Particle, from: nat, to: nat) {
    forall k: nat :: from <= k < to && k < |bs| ==> check(bs[k], d) == Mismatch
  }

  /** Each derived particle has the first free place that accepts it. */
  ghost predicate FirstFreely(t: Tables, check: PairCheck, bs: seq<Particle>, ds: seq<Particle>, g: seq<nat>)
    requires Acyclic(t.models)
  {
    && Maps(t, check, bs, ds, g)
    && forall j :: 0 <= j < |g| ==> FirstFreePlace(check, bs, ds, g, j)
  }

  ghost predicate FirstFreePlace(check: PairCheck, bs: seq<Particle>, ds: seq<Particle>, g: seq<nat>, j: int)
    requires |g| <= |ds|
  {
    0 <= j < |g| ==> forall k: nat :: k < g[j] && k < |bs| && k !in g[..j] ==> Passed(check(bs[k], ds[j]))
  }

  /** A verdict after which the injective check tries the next place. */
  predicate Passed(v: Verdict) {
    v.Mismatch? || v.Unsupported?
  }

  /** Both lists have the same length and every pair is accepted. */
  ghost predicate PairwiseAccepted(check: PairCheck, bs: seq<Particle>, ds: seq<Particle>) {
    |bs| == |ds| && forall i :: 0 <= i < |bs| ==> check(bs[i], ds[i]) == Accepts
  }

  ghost predicate SomePairGives(check: PairCheck, bs: seq<Particle>, ds: seq<Particle>, v: Verdict) {
    exists i, j :: 0 <= i < |bs| && 0 <= j < |ds| && check(bs[i], ds[j]) == v
  }

  lemma PairwiseIsFirst(t: Tables, check: PairCheck, bs: seq<Particle>, ds: seq<Particle>) returns (g: seq<nat>)
    requires Acyclic(t.models) && PairwiseAccepted(check, bs, ds)
    ensures FirstInOrder(t, check, bs, ds, g) && FirstFreely(t, check, bs, ds, g)
  {
    g := seq(|bs|, i requires 0 <= i < |bs| => i);
    forall k: nat | k < |bs|
      ensures TakenOrEmptiable(t, bs, g, k)
    {
      assert g[k] == k && k in g;
    }
    forall j | 0 <= j < |g|
      ensures FirstPlace(check, bs, ds, g, j)
    {
      assert SearchFrom(g, j) == j;
    }
    forall j | 0 <= j < |g|
      ensures FirstFreePlace(check, bs, ds, g, j)
    {
      forall k: nat | k < j
        ensures k in g[..j]
      {
        assert g[..j][k] == k;
      }
    }
  }

  // ----- the order-preserving check -----

  /** The first j derived particles are mapped to base particles before baseIndex. */
  ghost predicate MappedSoFar(t: Tables, check: PairCheck, bs: seq<Particle>, ds: seq<Particle>, g: seq<nat>, baseIndex: nat)
    requires Acyclic(t.models)
  {
    match t case Tables(_, _, _, _, _) =>
      && |g| <= |ds| && baseIndex <= |bs| && InOrder(g) && SearchFrom(g, |g|) <= baseIndex
      && (forall i :: 0 <= i < |g| ==> g[i] < baseIndex && check(bs[g[i]], ds[i]) == Accepts)
      && (forall k: nat :: k < baseIndex ==> TakenOrEmptiable(t, bs, g, k))
      && (forall j :: 0 <= j < |g| ==> FirstPlace(check, bs, ds, g, j))
      && (|g| < |ds| ==> PassedOver(check, bs, ds[|g|], SearchFrom(g, |g|), baseIndex))
  }

  /** Every mapping of the wanted kind begins like this one. */
  ghost predicate OnTrack(t: Tables, check: PairCheck, bs: seq<Particle>, ds: seq<Particle>, g: seq<nat>, baseIndex: nat)
    requires Acyclic(t.models)
  {
    forall h :: FirstInOrder(t, check, bs, ds, h) ==> Begins(h, g, baseIndex)
  }

  ghost predicate Begins(h: seq<nat>, g: seq<nat>, baseIndex: nat) {
    && |g| <= |h| && h[..|g|] == g && SearchFrom(g, |g|) <= baseIndex
    && (|g| < |h| ==> baseIndex <= h[|g|])
  }

  /** The next place of such a mapping. */
  lemma NextPlace(t: Tables, check: PairCheck, bs: seq<Particle>, ds: seq<Particle>, g: seq<nat>, b: nat, h: seq<nat>)
    requires Acyclic(t.models) && |g| < |ds| && OnTrack(t, check, bs, ds, g, b) && FirstInOrder(t, check, bs, ds, h)
    ensures |g| < |h| && b <= h[|g|] < |bs| && check(bs[h[|g|]], ds[|g|]) == Accepts && h[..|g|] == g
    ensures b < h[|g|] ==> check(bs[b], ds[|g|]) == Mismatch && ParticleEmptiable(t, bs[b])
  {
    assert Begins(h, g, b);
    assert SearchFrom(h, |g|) == SearchFrom(g, |g|);
    if b < h[|g|] {
      assert FirstPlace(check, bs, ds, h, |g|);
      assert TakenOrEmptiable(t, bs, h, b);
      forall i | 0 <= i < |h|
        ensures h[i] != b
      {
        assert i < |g| ==> h[i] <= h[|g| - 1];
      }
    }
  }

  lemma WholeMapping(t: Tables, check: PairCheck, bs: seq<Particle>, ds: seq<Particle>, g: seq<nat>, b: nat, h: seq<nat>)
    requires Acyclic(t.models) && |g| == |ds| && OnTrack(t, check, bs, ds, g, b) && FirstInOrder(t, check, bs, ds, h)
    ensures h == g
  {
    assert Begins(h, g, b);
  }

  lemma TakePlace(t: Tables, check: PairCheck, bs: seq<Particle>, ds: seq<Particle>, g: seq<nat>, b: nat)
    requires Acyclic(t.models) && |g| < |ds| && b < |bs| && check(bs[b], ds[|g|]) == Accepts
    requires MappedSoFar(t, check, bs, ds, g, b)
    ensures MappedSoFar(t, check, bs, ds, g + [b], b + 1)
  {
    var g' := g + [b];
    forall j | 0 <= j < |g'|
      ensures FirstPlace(check, bs, ds, g', j)
    {
      assert j < |g| ==> FirstPlace(check, bs, ds, g, j);
      assert SearchFrom(g', j) == SearchFrom(g, j);
    }
    forall k: nat | k < b + 1
      ensures TakenOrEmptiable(t, bs, g', k)
    {
      assert k < b ==> TakenOrEmptiable(t, bs, g, k);
      assert k == b ==> g'[|g|] == k;
      assert k in g ==> k in g';
    }
  }

  lemma TrackPlace(t: Tables, check: PairCheck, bs: seq<Particle>, ds: seq<Particle>, g: seq<nat>, b: nat)
    requires Acyclic(t.models) && |g| < |ds| && b < |bs| && check(bs[b], ds[|g|]) == Accepts
    requires OnTrack(t, check, bs, ds, g, b)
    ensures OnTrack(t, check, bs, ds, g + [b], b + 1)
  {
    forall h | FirstInOrder(t, check, bs, ds, h)
      ensures Begins(h, g + [b], b + 1)
    {
      NextPlace(t, check, bs, ds, g, b, h);
      assert h[..|g| + 1] == h[..|g|] + [h[|g|]];
      assert |g| + 1 < |h| ==> h[|g|] < h[|g| + 1];
    }
  }

  lemma PassPlace(t: Tables, check: PairCheck, bs: seq<Particle>, ds: seq<Particle>, g: seq<nat>, b: nat)
    requires Acyclic(t.models) && |g| < |ds| && b < |bs| && check(bs[b], ds[|g|]) == Mismatch && ParticleEmptiable(t, bs[b])
    requires MappedSoFar(t, check, bs, ds, g, b)
    ensures MappedSoFar(t, check, bs, ds, g, b + 1)
  {
  }

  lemma TrackPast(t: Tables, check: PairCheck, bs: seq<Particle>, ds: seq<Particle>, g: seq<nat>, b: nat)
    requires Acyclic(t.models) && |g| < |ds| && b < |bs| && check(bs[b], ds[|g|]) == Mismatch
    requires OnTrack(t, check, bs, ds, g, b)
    ensures OnTrack(t, check, bs, ds, g, b + 1)
  {
    forall h | FirstInOrder(t, check, bs, ds, h)
      ensures Begins(h, g, b + 1)
    {
      NextPlace(t, check, bs, ds, g, b, h);
      assert Begins(h, g, b);
    }
  }

  ghost predicate NoMapping(t: Tables, check: PairCheck, bs: seq<Particle>, ds: seq<Particle>)
    requires Acyclic(t.models)
  {
    forall h :: !FirstInOrder(t, check, bs, ds, h)
  }

  /** A base particle that neither accepts nor may be passed over. */
  lemma NoPlace(t: Tables, check: PairCheck, bs: seq<Particle>, ds: seq<Particle>, g: seq<nat>, b: nat)
    requires Acyclic(t.models) && |g| < |ds| && OnTrack(t, check, bs, ds, g, b)
    requires b < |bs| ==> match check(bs[b], ds[|g|]) case Accepts => false case Mismatch => !ParticleEmptiable(t, bs[b]) case _ => true
    ensures NoMapping(t, check, bs, ds)
  {
    forall h
      ensures !FirstInOrder(t, check, bs, ds, h)
    {
      if FirstInOrder(t, check, bs, ds, h) {
        NextPlace(t, check, bs, ds, g, b, h);
      }
    }
  }

  lemma PlaceLeftOver(t: Tables, check: PairCheck, bs: seq<Particle>, ds: seq<Particle>, g: seq<nat>, b: nat, k: nat)
    requires Acyclic(t.models) && |g| == |ds| && OnTrack(t, check, bs, ds, g, b) && MappedSoFar(t, check, bs, ds, g, b)
    requires b <= k < |bs| && !ParticleEmptiable(t, bs[k])
    ensures NoMapping(t, check, bs, ds)
  {
    assert k !in g && !TakenOrEmptiable(t, bs, g, k);
    forall h
      ensures !FirstInOrder(t, check, bs, ds, h)
    {
      if FirstInOrder(t, check, bs, ds, h) {
        WholeMapping(t, check, bs, ds, g, b, h);
      }
    }
  }

  lemma MappedAll(t: Tables, check: PairCheck, bs: seq<Particle>, ds: seq<Particle>, g: seq<nat>, b: nat)
    requires Acyclic(t.models) && |g| == |ds| && MappedSoFar(t, check, bs, ds, g, b)
    requires forall k: nat :: b <= k < |bs| ==> ParticleEmptiable(t, bs[k])
    ensures FirstInOrder(t, check, bs, ds, g)
  {
    forall k: nat | k < |bs|
      ensures TakenOrEmptiable(t, bs, g, k)
    {
    }
  }

  /** Each derived particle takes the next base particle that accepts it, and only emptiable
      ones are passed over: it accepts exactly when places so chosen make a mapping. */
  method MapInOrder(t: Tables, check: PairCheck, bs: seq<Particle>, ds: seq<Particle>) returns (r: Verdict, ghost g: seq<nat>)
    requires Acyclic(t.models)
    ensures r.Accepts? ==> FirstInOrder(t, check, bs, ds, g)
    ensures r.Accepts? <==> exists h :: FirstInOrder(t, check, bs, ds, h)
    ensures PairwiseAccepted(check, bs, ds) ==> r.Accepts?
    ensures r.Unsupported? || r.Broken? ==> SomePairGives(check, bs, ds, r)
  {
    if PairwiseAccepted(check, bs, ds) {
      ghost var h := PairwiseIsFirst(t, check, bs, ds);
    }
    var baseIndex: nat := 0;
    g := [];
    for j := 0 to |ds|
      invariant |g| == j && baseIndex <= |bs| && MappedSoFar(t, check, bs, ds, g, baseIndex) && OnTrack(t, check, bs, ds, g, baseIndex)
    {
      r, baseIndex, g := PlaceNext(t, check, bs, ds, j, baseIndex, g);
      if !r.Accepts? {
        return;
      }
    }
    r := LeaveRest(t, check, bs, ds, baseIndex, g);
  }

  /** The base particles after the last place. */
  method LeaveRest(t: Tables, check: PairCheck, bs: seq<Particle>, ds: seq<Particle>, from: nat, ghost g: seq<nat>) returns (r: Verdict)
    requires Acyclic(t.models) && |g| == |ds| && from <= |bs|
    requires MappedSoFar(t, check, bs, ds, g, from) && OnTrack(t, check, bs, ds, g, from)
    ensures r.Accepts? ==> FirstInOrder(t, check, bs, ds, g)
    ensures !r.Accepts? ==> r.Mismatch? && NoMapping(t, check, bs, ds)
  {
    for k := from to |bs|
      invariant forall i: nat :: from <= i < k ==> ParticleEmptiable(t, bs[i])
    {
      if !ParticleEmptiable(t, bs[k]) {
        PlaceLeftOver(t, check, bs, ds, g, from, k);
        return Mismatch;
      }
    }
    MappedAll(t, check, bs, ds, g, from);
    return Accepts;
  }

  /** Finds the place of the next derived particle. */
  method PlaceNext(t: Tables, check: PairCheck, bs: seq<Particle>, ds: seq<Particle>, j: nat, from: nat, ghost g: seq<nat>)
    returns (r: Verdict, baseIndex: nat, ghost g': seq<nat>)
    requires Acyclic(t.models) && |g| == j < |ds|
    requires MappedSoFar(t, check, bs, ds, g, from) && OnTrack(t, check, bs, ds, g, from)
    ensures r.Accepts? ==> |g'| == |g| + 1 && baseIndex <= |bs|
                           && MappedSoFar(t, check, bs, ds, g', baseIndex) && OnTrack(t, check, bs, ds, g', baseIndex)
    ensures !r.Accepts? ==> NoMapping(t, check, bs, ds)
    ensures r.Unsupported? || r.Broken? ==> SomePairGives(check, bs, ds, r)
  {
    baseIndex, g' := from, g;
    while baseIndex < |bs|
      invariant baseIndex <= |bs| && MappedSoFar(t, check, bs, ds, g, baseIndex) && OnTrack(t, check, bs, ds, g, baseIndex)
    {
      r := check(bs[baseIndex], ds[j]);
      match r {
        case Accepts =>
          TakePlace(t, check, bs, ds, g, baseIndex);
          TrackPlace(t, check, bs, ds, g, baseIndex);
          return r, baseIndex + 1, g + [baseIndex];
        case Mismatch =>
          if !ParticleEmptiable(t, bs[baseIndex]) {
            NoPlace(t, check, bs, ds, g, baseIndex);
            return;
          }
        case _ =>
          NoPlace(t, check, bs, ds, g, baseIndex);
          return;
      }
      PassPlace(t, check, bs, ds, g, baseIndex);
      TrackPast(t, check, bs, ds, g, baseIndex);
      baseIndex := baseIndex + 1;
    }
    NoPlace(t, check, bs, ds, g, baseIndex);
    r := Mismatch;
  }

  // ----- the injective check -----

  /** The first derived particles have places of their own, which are the marked ones. */
  ghost predicate MappedFreely(check: PairCheck, bs: seq<Particle>, ds: seq<Particle>, g: seq<nat>, mapped: seq<bool>) {
    match (g, mapped) case (_, _) =>
      && |g| <= |ds| && |mapped| == |bs|
      && (forall k: nat :: k < |bs| ==> (mapped[k] <==> k in g))
      && (forall i :: 0 <= i < |g| ==> g[i] < |bs| && check(bs[g[i]], ds[i]) == Accepts)
      && (forall i, k :: 0 <= i < k < |g| ==> g[i] != g[k])
      && (forall j :: 0 <= j < |g| ==> FirstFreePlace(check, bs, ds, g, j))
  }

  /** Every mapping of the wanted kind begins like this one. */
  ghost predicate FreelyOnTrack(t: Tables, check: PairCheck, bs: seq<Particle>, ds: seq<Particle>, g: seq<nat>)
    requires Acyclic(t.models)
  {
    forall h :: FirstFreely(t, check, bs, ds, h) ==> g <= h
  }

  /** What a search among the free places finds: the first that accepts or breaks off. */
  ghost predicate Finds(check: PairCheck, bs: seq<Particle>, d: Particle, mapped: seq<bool>, r: Verdict, pos: nat)
    requires |mapped| == |bs|
  {
    if r.Accepts? || r.Broken? then
      && pos < |bs| && !mapped[pos] && check(bs[pos], d) == r
      && forall i :: 0 <= i < pos && !mapped[i] ==> Passed(check(bs[i], d))
    else
      forall i :: 0 <= i < |bs| && !mapped[i] ==> Passed(check(bs[i], d))
  }

  lemma TakeFree(check: PairCheck, bs: seq<Particle>, ds: seq<Particle>, g: seq<nat>, mapped: seq<bool>, pos: nat)
    requires MappedFreely(check, bs, ds, g, mapped) && |g| < |ds|
    requires Finds(check, bs, ds[|g|], mapped, Accepts, pos)
    ensures MappedFreely(check, bs, ds, g + [pos], mapped[pos := true])
  {
    var g' := g + [pos];
    assert g'[..|g|] == g && forall k :: k in g' <==> k in g || k == pos;
    forall j | 0 <= j < |g'|
      ensures FirstFreePlace(check, bs, ds, g', j)
    {
      assert j < |g| ==> FirstFreePlace(check, bs, ds, g, j) && g'[..j] == g[..j];
    }
  }

  lemma TrackFree(t: Tables, check: PairCheck, bs: seq<Particle>, ds: seq<Particle>, g: seq<nat>, mapped: seq<bool>, pos: nat)
    requires Acyclic(t.models) && MappedFreely(check, bs, ds, g, mapped) && |g| < |ds|
    requires Finds(check, bs, ds[|g|], mapped, Accepts, pos) && FreelyOnTrack(t, check, bs, ds, g)
    ensures FreelyOnTrack(t, check, bs, ds, g + [pos])
  {
    forall h | FirstFreely(t, check, bs, ds, h)
      ensures g + [pos] <= h
    {
      NextFree(t, check, bs, ds, g, mapped, h);
      assert h[|g|] == pos;
    }
  }

  /** The next place of a mapping that begins like this one is free. */
  lemma NextFree(t: Tables, check: PairCheck, bs: seq<Particle>, ds: seq<Particle>, g: seq<nat>, mapped: seq<bool>, h: seq<nat>)
    requires Acyclic(t.models) && MappedFreely(check, bs, ds, g, mapped) && |g| < |ds|
    requires FirstFreely(t, check, bs, ds, h) && g <= h
    ensures |g| < |h| && h[|g|] < |bs| && !mapped[h[|g|]] && check(bs[h[|g|]], ds[|g|]) == Accepts
    ensures forall k: nat :: k < h[|g|] && !mapped[k] ==> Passed(check(bs[k], ds[|g|]))
  {
    assert h[..|g|] == g && FirstFreePlace(check, bs, ds, h, |g|);
    assert forall i :: 0 <= i < |g| ==> h[i] == g[i] && g[i] != h[|g|];
  }

  lemma NoneFree(t: Tables, check: PairCheck, bs: seq<Particle>, ds: seq<Particle>, g: seq<nat>, mapped: seq<bool>, r: Verdict, pos: nat)
    requires Acyclic(t.models) && MappedFreely(check, bs, ds, g, mapped) && |g| < |ds|
    requires Finds(check, bs, ds[|g|], mapped, r, pos) && !r.Accepts? && FreelyOnTrack(t, check, bs, ds, g)
    ensures forall h :: !FirstFreely(t, check, bs, ds, h)
  {
    forall h
      ensures !FirstFreely(t, check, bs, ds, h)
    {
      if FirstFreely(t, check, bs, ds, h) {
        NextFree(t, check, bs, ds, g, mapped, h);
      }
    }
  }

  lemma FreeLeftOver(t: Tables, check: PairCheck, bs: seq<Particle>, ds: seq<Particle>, g: seq<nat>, mapped: seq<bool>, k: nat)
    requires Acyclic(t.models) && MappedFreely(check, bs, ds, g, mapped) && |g| == |ds| && FreelyOnTrack(t, check, bs, ds, g)
    requires k < |bs| && !mapped[k] && !ParticleEmptiable(t, bs[k])
    ensures forall h :: !FirstFreely(t, check, bs, ds, h)
  {
    assert k !in g && !TakenOrEmptiable(t, bs, g, k);
    forall h
      ensures !FirstFreely(t, check, bs, ds, h)
    {
      if FirstFreely(t, check, bs, ds, h) {
        WholeFreely(t, check, bs, ds, g, h);
      }
    }
  }

  lemma WholeFreely(t: Tables, check: PairCheck, bs: seq<Particle>, ds: seq<Particle>, g: seq<nat>, h: seq<nat>)
    requires Acyclic(t.models) && |g| == |ds| && FreelyOnTrack(t, check, bs, ds, g) && FirstFreely(t, check, bs, ds, h)
    ensures h == g
  {
    assert g <= h;
  }

  /** Each derived particle takes the first free base particle that accepts it, and the ones
      left over must be emptiable: it accepts exactly when places so chosen make a mapping. */
  method MapInjectively(t: Tables, check: PairCheck, bs: seq<Particle>, ds: seq<Particle>) returns (r: Verdict, ghost g: seq<nat>)
    requires Acyclic(t.models)
    ensures r.Accepts? ==> FirstFreely(t, check, bs, ds, g)
    ensures r.Accepts? <==> exists h :: FirstFreely(t, check, bs, ds, h)
    ensures PairwiseAccepted(check, bs, ds) ==> r.Accepts?
    ensures r.Unsupported? || r.Broken? ==> SomePairGives(check, bs, ds, r)
  {
    if PairwiseAccepted(check, bs, ds) {
      ghost var h := PairwiseIsFirst(t, check, bs, ds);
    }
    var mapped := new bool[|bs|](_ => false);
    g := [];
    for j := 0 to |ds|
      invariant |g| == j && MappedFreely(check, bs, ds, g, mapped[..]) && FreelyOnTrack(t, check, bs, ds, g)
    {
      var pos;
      r, pos := FindFree(check, bs, ds[j], mapped);
      if !r.Accepts? {
        NoneFree(t, check, bs, ds, g, mapped[..], r, pos);
        return;
      }
      TakeFree(check, bs, ds, g, mapped[..], pos);
      TrackFree(t, check, bs, ds, g, mapped[..], pos);
      g := g + [pos];
      mapped[pos] := true;
    }
    r := LeaveFree(t, check, bs, ds, mapped, g);
  }

  /** The base particles that no derived particle has taken. */
  method LeaveFree(t: Tables, check: PairCheck, bs: seq<Particle>, ds: seq<Particle>, mapped: array<bool>, ghost g: seq<nat>)
    returns (r: Verdict)
    requires Acyclic(t.models) && |g| == |ds| && MappedFreely(check, bs, ds, g, mapped[..]) && FreelyOnTrack(t, check, bs, ds, g)
    ensures r.Accepts? ==> FirstFreely(t, check, bs, ds, g)
    ensures !r.Accepts? ==> r.Mismatch? && forall h :: !FirstFreely(t, check, bs, ds, h)
  {
    for k := 0 to |bs|
      invariant forall i: nat :: i < k ==> TakenOrEmptiable(t, bs, g, i)
    {
      if !mapped[k] && !ParticleEmptiable(t, bs[k]) {
        FreeLeftOver(t, check, bs, ds, g, mapped[..], k);
        return Mismatch;
      }
      assert mapped[k] ==> k in g;
    }
    return Accepts;
  }

  method FindFree(check: PairCheck, bs: seq<Particle>, d: Particle, mapped: array<bool>) returns (r: Verdict, pos: nat)
    requires mapped.Length == |bs|
    ensures Finds(check, bs, d, mapped[..], r, pos)
    ensures r.Mismatch? ==> forall i :: 0 <= i < |bs| && !mapped[i] ==> check(bs[i], d) == Mismatch
    ensures r.Unsupported? ==> exists i :: 0 <= i < |bs| && !mapped[i] && check(bs[i], d) == r
  {
    pos := 0;
    var unsupported := false;
    for i := 0 to |bs|
      invariant forall k :: 0 <= k < i && !mapped[k] ==> check(bs[k], d).Mismatch? || (unsupported && check(bs[k], d).Unsupported?)
      invariant unsupported ==> exists k :: 0 <= k < i && !mapped[k] && check(bs[k], d).Unsupported?
    {
      if !mapped[i] {
        match check(bs[i], d) {
          case Accepts => return Accepts, i;
          case Mismatch =>
          case Unsupported => unsupported := true;
          case Broken => return Broken, i;
        }
      }
    }
    return if unsupported then Unsupported else Mismatch, 0;
  }

  // ----- when the greedy checks find every mapping -----

  /** No derived particle has two places to choose from, and every pair has a verdict. */
  ghost predicate OnePlaceEach(check: PairCheck, bs: seq<Particle>, ds: seq<Particle>) {
    forall i, k, j :: 0 <= i < |bs| && 0 <= k < |bs| && 0 <= j < |ds| && i != k && check(bs[k], ds[j]) == Accepts ==>
      check(bs[i], ds[j]) == Mismatch
  }

  /** Then the greedy checks accept exactly when there is a mapping at all. */
  lemma GreedyFindsAll(t: Tables, check: PairCheck, bs: seq<Particle>, ds: seq<Particle>)
    requires Acyclic(t.models) && OnePlaceEach(check, bs, ds)
    ensures forall g :: FirstInOrder(t, check, bs, ds, g) <==> Maps(t, check, bs, ds, g) && InOrder(g)
    ensures forall g :: FirstFreely(t, check, bs, ds, g) <==> Maps(t, check, bs, ds, g)
  {
    forall g, j, k | Maps(t, check, bs, ds, g) && 0 <= j < |g| && 0 <= k < g[j]
      ensures check(bs[k], ds[j]) == Mismatch
    {
      assert check(bs[g[j]], ds[j]) == Accepts;
    }
    forall g, j | Maps(t, check, bs, ds, g) && 0 <= j < |g|
      ensures FirstPlace(check, bs, ds, g, j) && FirstFreePlace(check, bs, ds, g, j)
    {
    }
  }

  /** Base particles that share no first child leave one place: it is enough that every
      derived particle can have a child and every pair is accepted or mismatched. */
  lemma ApartOnePlaceEach(t: Tables, check: PairCheck, bs: seq<Particle>, ds: seq<Particle>)
    requires ValidTables(t) && PairSound(t, check) && RefsInRange(t.models, bs) && RefsInRange(t.models, ds)
    requires forall i :: 0 <= i < |bs| ==> AnyFree(t, bs[i].term) && bs[i].occurs.Valid()
    requires forall i, k :: 0 <= i < |bs| && 0 <= k < |bs| && i != k ==> !TermsOverlap(t, bs[i].term, bs[k].term)
    requires forall i, j :: 0 <= i < |bs| && 0 <= j < |ds| ==> check(bs[i], ds[j]).Accepts? || check(bs[i], ds[j]).Mismatch?
    requires forall j :: 0 <= j < |ds| ==> HasChild(t, ds[j])
    ensures OnePlaceEach(check, bs, ds)
  {
    forall i, k, j | 0 <= i < |bs| && 0 <= k < |bs| && 0 <= j < |ds| && i != k && check(bs[k], ds[j]) == Accepts
      ensures check(bs[i], ds[j]) == Mismatch
    {
      if check(bs[i], ds[j]) == Accepts {
        assert HasChild(t, ds[j]);
        var w: Word :| w != [] && w in ParticleLang(t, ds[j]);
        var a := FirstPiece(TermLang(t, bs[i].term), bs[i].occurs, w);
        var b := FirstPiece(TermLang(t, bs[k].term), bs[k].occurs, w);
        CommonFirstChild(t, bs[i].term, bs[k].term, w[..a], w[..b]);
      }
    }
  }

  ghost predicate HasChild(t: Tables, p: Particle)
    requires Acyclic(t.models) && TermInRange(t.models, p.term)
  {
    exists w: Word :: w != [] && w in ParticleLang(t, p)
  }

  const GREEDY_TABLES := Tables([QName("", "a"), QName("", "c")], [], [Wildcard(AnyNamespace, Skip)], map[], [])
  const GREEDY_BASE := [Particle(WildcardTerm(0), Occurrence(0, 1, false)), Particle(WildcardTerm(0), ONE), Particle(ElementTerm(1), ONE)]
  const GREEDY_DERIVED := [Particle(ElementTerm(0), ONE), Particle(ElementTerm(1), ONE)]

  /** Otherwise the greedy checks can miss a mapping. An optional and a required wildcard
      before an element, against two elements: taking the optional wildcard first leaves the
      last element unused, although the required one could have been taken. */
  lemma {:induction false} GreedyMisses()
    ensures ValidTables(GREEDY_TABLES) && PairSound(GREEDY_TABLES, SimplePairs)
    ensures Maps(GREEDY_TABLES, SimplePairs, GREEDY_BASE, GREEDY_DERIVED, [1, 2]) && InOrder([1, 2])
    ensures forall g :: !FirstInOrder(GREEDY_TABLES, SimplePairs, GREEDY_BASE, GREEDY_DERIVED, g)
    ensures forall g :: !FirstFreely(GREEDY_TABLES, SimplePairs, GREEDY_BASE, GREEDY_DERIVED, g)
  {
    var t := GREEDY_TABLES;
    assert Ranked(t.models, []);
    SimplePairsSound(t);
    assert ParticleEmptiable(t, GREEDY_BASE[0]);
    forall g
      ensures !FirstInOrder(t, SimplePairs, GREEDY_BASE, GREEDY_DERIVED, g)
      ensures !FirstFreely(t, SimplePairs, GREEDY_BASE, GREEDY_DERIVED, g)
    {
      if Maps(t, SimplePairs, GREEDY_BASE, GREEDY_DERIVED, g) {
        OnlyMapping(t, g);
        assert g[..0] == [] && !Passed(SimplePairs(GREEDY_BASE[0], GREEDY_DERIVED[0]));
      }
    }
  }

  /** Both required base particles must be taken. */
  lemma OnlyMapping(t: Tables, g: seq<nat>)
    requires Acyclic(t.models) && Maps(t, SimplePairs, GREEDY_BASE, GREEDY_DERIVED, g)
    ensures |g| == 2 && g[0] == 1 && g[1] == 2 && 0 !in g[..0]
    ensures SimplePairs(GREEDY_BASE[0], GREEDY_DERIVED[0]) == Accepts
    ensures !FirstPlace(SimplePairs, GREEDY_BASE, GREEDY_DERIVED, g, 0)
    ensures !FirstFreePlace(SimplePairs, GREEDY_BASE, GREEDY_DERIVED, g, 0)
  {
    assert !ParticleEmptiable(t, GREEDY_BASE[1]) && !ParticleEmptiable(t, GREEDY_BASE[2]);
    assert TakenOrEmptiable(t, GREEDY_BASE, g, 1) && TakenOrEmptiable(t, GREEDY_BASE, g, 2);
    assert 1 in g && 2 in g;
    assert SimplePairs(GREEDY_BASE[2], GREEDY_DERIVED[0]) == Mismatch;
  }

  /** Of the program's pair check: an element against the same element, or a wildcard that
      admits everything against an element, with the range inside. */
  function SimplePairs(b: Particle, d: Particle): Verdict {
    if d.term.ElementTerm? && (b.term == d.term || b.term == WildcardTerm(0)) && d.occurs.Valid() && b.occurs.Valid()
       && OccurrenceRangeSubset(d.occurs, b.occurs) then Accepts
    else Mismatch
  }

  lemma SimplePairsSound(t: Tables)
    requires Acyclic(t.models) && t.wildcards == [Wildcard(AnyNamespace, Skip)]
    ensures PairSound(t, SimplePairs)
  {
    forall b: Particle, d: Particle | SimplePairs(b, d) == Accepts && TermInRange(t.models, b.term) && TermInRange(t.models, d.term)
      ensures ParticleLang(t, d) <= ParticleLang(t, b)
    {
      RangeSubsetMeans(d.occurs, b.occurs);
      RepMonotone(TermLang(t, d.term), TermLang(t, b.term), d.occurs, b.occurs);
    }
  }

  // ----- the group cases -----

  /** Sequence against sequence, or xs:all against xs:all: acceptance is inclusion. */
  method ValidateOrderedGroup(t: Tables, check: PairCheck, base: ContentModel, derived: ContentModel) returns (r: Verdict)
    requires ValidTables(t) && ValidModel(t, base) && ValidModel(t, derived)
    requires base.kind == derived.kind && (base.kind.Sequence? || base.kind.All?)
    ensures r.Accepts? && PairSound(t, check) ==>
              RefsInRange(t.models, base.particles) && RefsInRange(t.models, derived.particles)
              && GroupLang(t, derived) <= GroupLang(t, base)
    ensures r.Accepts? <==>
              && OccurrenceRangeSubset(derived.occurs, base.occurs)
              && exists g :: FirstInOrder(t, check, base.particles, derived.particles, g)
    ensures !OccurrenceRangeSubset(derived.occurs, base.occurs) ==> r.Mismatch?
    ensures OccurrenceRangeSubset(derived.occurs, base.occurs) && PairwiseAccepted(check, base.particles, derived.particles) ==>
              r.Accepts?
    ensures r.Unsupported? || r.Broken? ==> SomePairGives(check, base.particles, derived.particles, r)
  {
    if !OccurrenceRangeSubset(derived.occurs, base.occurs) {
      return Mismatch;
    }
    ghost var g;
    r, g := MapInOrder(t, check, base.particles, derived.particles);
    if r.Accepts? && PairSound(t, check) {
      RangeSubsetMeans(derived.occurs, base.occurs);
      MapsPlaces(t, check, base.particles, derived.particles, g);
      if base.kind.Sequence? {
        OrderedInclusion(t, base.particles, derived.particles, g);
      } else {
        MappedAllInclusion(t, base.particles, derived.particles, g);
      }
      RepMonotone(BodyLang(t, derived.kind, derived.particles), BodyLang(t, base.kind, base.particles), derived.occurs, base.occurs);
    }
  }

  /** Sequence against xs:all: acceptance is inclusion. */
  method ValidateSequenceRestrictsAll(t: Tables, check: PairCheck, base: ContentModel, derived: ContentModel) returns (r: Verdict)
    requires ValidTables(t) && ValidModel(t, base) && ValidModel(t, derived)
    requires base.kind.All? && derived.kind.Sequence?
    ensures r.Accepts? && PairSound(t, check) ==>
              RefsInRange(t.models, base.particles) && RefsInRange(t.models, derived.particles)
              && GroupLang(t, derived) <= GroupLang(t, base)
    ensures r.Accepts? <==>
              && OccurrenceRangeSubset(derived.occurs, base.occurs)
              && exists g :: FirstFreely(t, check, base.particles, derived.particles, g)
    ensures !OccurrenceRangeSubset(derived.occurs, base.occurs) ==> r.Mismatch?
    ensures OccurrenceRangeSubset(derived.occurs, base.occurs) && PairwiseAccepted(check, base.particles, derived.particles) ==>
              r.Accepts?
    ensures r.Unsupported? || r.Broken? ==> SomePairGives(check, base.particles, derived.particles, r)
  {
    if !OccurrenceRangeSubset(derived.occurs, base.occurs) {
      return Mismatch;
    }
    ghost var g;
    r, g := MapInjectively(t, check, base.particles, derived.particles);
    if r.Accepts? && PairSound(t, check) {
      RangeSubsetMeans(derived.occurs, base.occurs);
      MapsPlaces(t, check, base.particles, derived.particles, g);
      MappedSequenceInclusion(t, base.particles, derived.particles, g);
      RepMonotone(BodyLang(t, derived.kind, derived.particles), BodyLang(t, base.kind, base.particles), derived.occurs, base.occurs);
    }
  }
}
