/** How few and how many children a particle can take: emptiability and saturating
    count ranges, each related to the language of the particle. */
module ParticleRanges {
  import opened Schema
  import opened Languages
  import opened ContentLanguage

  // ----- emptiability -----

  predicate ModelEmptiable(t: Tables, id: nat)
    requires Acyclic(t.models)
    decreases TermHeightOr0(t.models, ModelTerm(id)), 0, 0
  {
    if id >= |t.models| then false
    else
      var m := t.models[id];
      ModelHeight(t.models, id);
      if m.occurs.min == 0 then true
      else match m.kind
        case EmptyModel => true
        case AnyModel => true
        case Sequence => AllEmptiable(t, m.particles)
        case All => AllEmptiable(t, m.particles)
        case Choice => SomeEmptiable(t, m.particles)
  }

  ghost function TermHeightOr0(models: seq<ContentModel>, term: Term): nat
    requires Acyclic(models)
  {
    if TermInRange(models, term) then TermHeight(models, term) else 0
  }

  predicate ParticleEmptiable(t: Tables, p: Particle)
    requires Acyclic(t.models)
    decreases TermHeightOr0(t.models, p.term), 0, 1
  {
    p.occurs.min == 0 || (p.term.ModelTerm? && ModelEmptiable(t, p.term.model))
  }

  predicate AllEmptiable(t: Tables, ps: seq<Particle>)
    requires Acyclic(t.models) && RefsInRange(t.models, ps)
    decreases Height(t.models, ps), |ps|, 2
  {
    ps == [] || (AllEmptiable(t, ps[..|ps| - 1]) && ParticleEmptiable(t, ps[|ps| - 1]))
  }

  predicate SomeEmptiable(t: Tables, ps: seq<Particle>)
    requires Acyclic(t.models) && RefsInRange(t.models, ps)
    decreases Height(t.models, ps), |ps|, 2
  {
    ps != [] && (SomeEmptiable(t, ps[..|ps| - 1]) || ParticleEmptiable(t, ps[|ps| - 1]))
  }

  /** A particle is emptiable exactly when its language has the empty word. */
  lemma {:induction false} ParticleEmptiableIff(t: Tables, p: Particle)
    requires ValidTables(t) && ValidParticles(t, [p])
    ensures TermInRange(t.models, p.term)
    ensures ParticleEmptiable(t, p) <==> [] in ParticleLang(t, p)
    decreases TermHeightOr0(t.models, p.term), 0, 1
  {
    assert [p][0] == p;
    RepHasEmpty(TermLang(t, p.term), p.occurs);
    if p.term.ModelTerm? {
      ModelEmptiableIff(t, p.term.model);
    }
  }

  lemma {:induction false} ModelEmptiableIff(t: Tables, id: nat)
    requires ValidTables(t) && id < |t.models|
    ensures ModelEmptiable(t, id) <==> [] in ModelLang(t, id)
    decreases TermHeightOr0(t.models, ModelTerm(id)), 0, 0
  {
    var m := t.models[id];
    ModelHeight(t.models, id);
    UnfoldModel(t, id);
    match m.kind {
      case EmptyModel =>
      case AnyModel =>
      case Sequence =>
        SequenceEmptiableIff(t, m.particles);
        RepHasEmpty(SequenceLang(t, m.particles), m.occurs);
      case Choice =>
        ChoiceEmptiableIff(t, m.particles);
        RepHasEmpty(ChoiceLang(t, m.particles), m.occurs);
      case All =>
        AllEmptiableIff(t, m.particles);
        RepHasEmpty(AllLang(t, m.particles), m.occurs);
    }
  }

  lemma ValidPrefix(t: Tables, ps: seq<Particle>)
    requires ValidParticles(t, ps) && ps != []
    ensures ValidParticles(t, ps[..|ps| - 1]) && ValidParticles(t, [ps[|ps| - 1]])
  {
  }

  lemma {:induction false} SequenceEmptiableIff(t: Tables, ps: seq<Particle>)
    requires ValidTables(t) && ValidParticles(t, ps) && RefsInRange(t.models, ps)
    ensures AllEmptiable(t, ps) <==> [] in SequenceLang(t, ps)
    decreases Height(t.models, ps), |ps|, 2
  {
    if ps != [] {
      ValidPrefix(t, ps);
      SequenceEmptiableIff(t, ps[..|ps| - 1]);
      ParticleEmptiableIff(t, ps[|ps| - 1]);
      CatHasEmpty(SequenceLang(t, ps[..|ps| - 1]), ParticleLang(t, ps[|ps| - 1]));
    }
  }

  lemma {:induction false} ChoiceEmptiableIff(t: Tables, ps: seq<Particle>)
    requires ValidTables(t) && ValidParticles(t, ps) && RefsInRange(t.models, ps)
    ensures SomeEmptiable(t, ps) <==> [] in ChoiceLang(t, ps)
    decreases Height(t.models, ps), |ps|, 2
  {
    if ps != [] {
      ValidPrefix(t, ps);
      ChoiceEmptiableIff(t, ps[..|ps| - 1]);
      ParticleEmptiableIff(t, ps[|ps| - 1]);
    }
  }

  /** An xs:all group has only direct terms, so emptiable means nothing is required. */
  lemma AllEmptiableIff(t: Tables, ps: seq<Particle>)
    requires Acyclic(t.models) && RefsInRange(t.models, ps)
    requires forall i :: 0 <= i < |ps| ==> !ps[i].term.ModelTerm?
    ensures AllEmptiable(t, ps) <==> [] in AllLang(t, ps)
  {
    OptionalTerms(t, ps);
    var none: seq<nat> := [];
    assert Assignment(t, ps, [], none);
    if forall i :: 0 <= i < |ps| ==> ps[i].occurs.min == 0 {
      assert Covers(ps, none);
    }
    if [] in AllLang(t, ps) {
      var f :| Assignment(t, ps, [], f) && Covers(ps, f);
      assert f == none;
    }
  }

  lemma {:induction false} OptionalTerms(t: Tables, ps: seq<Particle>)
    requires Acyclic(t.models) && RefsInRange(t.models, ps)
    requires forall i :: 0 <= i < |ps| ==> !ps[i].term.ModelTerm?
    ensures AllEmptiable(t, ps) <==> forall i :: 0 <= i < |ps| ==> ps[i].occurs.min == 0
    decreases |ps|
  {
    if ps != [] {
      OptionalTerms(t, ps[..|ps| - 1]);
    }
  }

  // ----- saturating occurrence arithmetic -----

  function SaturatingAdd(a: Uint32, b: Uint32): Uint32 {
    if MAX_UINT32 - a < b then MAX_UINT32 else a + b
  }

  /** Dividing the limit tells whether a product exceeds it. */
  lemma DivisionDecides(a: nat, b: nat, limit: nat)
    requires b > 0
    ensures a > limit / b <==> a * b > limit
  {
    var q, r := limit / b, limit % b;
    assert limit == q * b + r;
    if a > q {
      MulMonotone(q + 1, a, b);
    } else {
      MulMonotone(a, q, b);
    }
  }

  function SaturatingMul(a: Uint32, b: Uint32): (r: Uint32)
    ensures r as int == if a * b > MAX_UINT32 then MAX_UINT32 else a * b
  {
    if a == 0 || b == 0 then 0
    else if a > MAX_UINT32 / b then
      DivisionDecides(a, b, MAX_UINT32);
      MAX_UINT32
    else
      DivisionDecides(a, b, MAX_UINT32);
      a * b
  }

  function AddOccurrenceRanges(a: Occurrence, b: Occurrence): Occurrence {
    Occurrence(SaturatingAdd(a.min, b.min), SaturatingAdd(a.max, b.max), a.unbounded || b.unbounded)
  }

  function UnionOccurrenceRanges(a: Occurrence, b: Occurrence): Occurrence {
    var min := if b.min < a.min then b.min else a.min;
    if a.unbounded || b.unbounded then Occurrence(min, 0, true)
    else Occurrence(min, if b.max > a.max then b.max else a.max, false)
  }

  function MultiplyOccurrence(a: Occurrence, b: Occurrence): Occurrence {
    var min := SaturatingMul(a.min, b.min);
    if a.unbounded || b.unbounded then Occurrence(min, 0, true)
    else Occurrence(min, SaturatingMul(a.max, b.max), false)
  }

  predicate OccurrenceRangeSubset(derived: Occurrence, base: Occurrence) {
    if derived.min < base.min then false
    else if base.unbounded then true
    else if derived.unbounded then false
    else derived.max <= base.max
  }

  lemma RangeSubsetMeans(derived: Occurrence, base: Occurrence)
    requires derived.Valid() && base.Valid()
    ensures OccurrenceRangeSubset(derived, base) <==> forall k: nat :: derived.Contains(k) ==> base.Contains(k)
  {
    if forall k: nat :: derived.Contains(k) ==> base.Contains(k) {
      assert derived.Contains(derived.min);
      if derived.unbounded {
        assert derived.Contains(derived.min + base.max + 1);
      } else {
        assert derived.Contains(derived.max);
      }
    }
  }

  // ----- how many children -----

  /** The range bounds every length, except that a saturated maximum bounds nothing. */
  ghost predicate Bounds(o: Occurrence, l: Lang) {
    forall w: Word :: w in l ==> InBounds(o, |w|)
  }

  ghost predicate InBounds(o: Occurrence, n: nat) {
    o.min <= n && (o.unbounded || o.max == MAX_UINT32 || n <= o.max)
  }

  function ModelCountRange(t: Tables, id: nat): Occurrence
    requires Acyclic(t.models)
    decreases TermHeightOr0(t.models, ModelTerm(id)), 0, 0
  {
    if id >= |t.models| then Occurrence(0, 0, false)
    else
      var m := t.models[id];
      ModelHeight(t.models, id);
      MultiplyOccurrence(BodyCountRange(t, m.kind, m.particles), m.occurs)
  }

  function BodyCountRange(t: Tables, kind: ModelKind, ps: seq<Particle>): Occurrence
    requires Acyclic(t.models) && RefsInRange(t.models, ps)
    decreases Height(t.models, ps), |ps|, 3
  {
    match kind
    case EmptyModel => Occurrence(0, 0, false)
    case AnyModel => Occurrence(0, 0, true)
    case Sequence => SumRange(t, ps)
    case All => SumRange(t, ps)
    case Choice => if ps == [] then Occurrence(0, 0, false) else UnionRange(t, ps)
  }

  function SumRange(t: Tables, ps: seq<Particle>): Occurrence
    requires Acyclic(t.models) && RefsInRange(t.models, ps)
    decreases Height(t.models, ps), |ps|, 2
  {
    if ps == [] then Occurrence(0, 0, false)
    else AddOccurrenceRanges(SumRange(t, ps[..|ps| - 1]), ParticleCountRange(t, ps[|ps| - 1]))
  }

  function UnionRange(t: Tables, ps: seq<Particle>): Occurrence
    requires Acyclic(t.models) && RefsInRange(t.models, ps) && ps != []
    decreases Height(t.models, ps), |ps|, 2
  {
    if |ps| == 1 then ParticleCountRange(t, ps[0])
    else UnionOccurrenceRanges(UnionRange(t, ps[..|ps| - 1]), ParticleCountRange(t, ps[|ps| - 1]))
  }

  function ParticleCountRange(t: Tables, p: Particle): Occurrence
    requires Acyclic(t.models)
    decreases TermHeightOr0(t.models, p.term), 0, 1
  {
    var term := if p.term.ModelTerm? then ModelCountRange(t, p.term.model) else ONE;
    MultiplyOccurrence(term, p.occurs)
  }

  method SumParticles(t: Tables, ps: seq<Particle>) returns (term: Occurrence)
    requires Acyclic(t.models) && RefsInRange(t.models, ps)
    ensures term == SumRange(t, ps)
    decreases Height(t.models, ps), 3
  {
    term := Occurrence(0, 0, false);
    for i := 0 to |ps|
      invariant term == SumRange(t, ps[..i])
    {
      TermHeightBound(t.models, ps, i);
      assert ps[..i + 1][..i] == ps[..i];
      var p := CountParticle(t, ps[i]);
      term := AddOccurrenceRanges(term, p);
    }
    assert ps[..|ps|] == ps;
  }

  method UnionParticles(t: Tables, ps: seq<Particle>) returns (term: Occurrence)
    requires Acyclic(t.models) && RefsInRange(t.models, ps) && ps != []
    ensures term == UnionRange(t, ps)
    decreases Height(t.models, ps), 3
  {
    TermHeightBound(t.models, ps, 0);
    term := CountParticle(t, ps[0]);
    for i := 1 to |ps|
      invariant term == UnionRange(t, ps[..i])
    {
      TermHeightBound(t.models, ps, i);
      assert ps[..i + 1][..i] == ps[..i];
      var p := CountParticle(t, ps[i]);
      term := UnionOccurrenceRanges(term, p);
    }
    assert ps[..|ps|] == ps;
  }

  /** Accumulates the range over the particles of a model. */
  method CountModel(t: Tables, id: nat) returns (r: Occurrence)
    requires Acyclic(t.models)
    ensures r == ModelCountRange(t, id)
    decreases TermHeightOr0(t.models, ModelTerm(id)), 1
  {
    if id >= |t.models| {
      return Occurrence(0, 0, false);
    }
    var m := t.models[id];
    ModelHeight(t.models, id);
    var term := Occurrence(0, 0, false);
    match m.kind {
      case EmptyModel =>
      case AnyModel => term := Occurrence(0, 0, true);
      case Choice =>
        if m.particles != [] {
          term := UnionParticles(t, m.particles);
        }
      case _ => term := SumParticles(t, m.particles);
    }
    return MultiplyOccurrence(term, m.occurs);
  }

  method CountParticle(t: Tables, p: Particle) returns (r: Occurrence)
    requires Acyclic(t.models)
    ensures r == ParticleCountRange(t, p)
    decreases TermHeightOr0(t.models, p.term), 2
  {
    var term := ONE;
    if p.term.ModelTerm? {
      term := CountModel(t, p.term.model);
    }
    return MultiplyOccurrence(term, p.occurs);
  }

  lemma CatBounds(a: Occurrence, la: Lang, b: Occurrence, lb: Lang)
    requires Bounds(a, la) && Bounds(b, lb)
    ensures Bounds(AddOccurrenceRanges(a, b), Cat(la, lb))
  {
    forall w: Word | w in Cat(la, lb)
      ensures InBounds(AddOccurrenceRanges(a, b), |w|)
    {
      var u, v := CatElim(la, lb, w);
      assert InBounds(a, |u|) && InBounds(b, |v|);
    }
  }

  lemma UnionBounds(a: Occurrence, la: Lang, b: Occurrence, lb: Lang)
    requires Bounds(a, la) && Bounds(b, lb)
    ensures Bounds(UnionOccurrenceRanges(a, b), la + lb)
  {
    forall w: Word | w in la + lb
      ensures InBounds(UnionOccurrenceRanges(a, b), |w|)
    {
      assert w in la ==> InBounds(a, |w|);
      assert w in lb ==> InBounds(b, |w|);
    }
  }

  lemma {:induction false} PowerLength(o: Occurrence, l: Lang, k: nat, w: Word)
    requires Bounds(o, l) && w in Power(l, k)
    ensures k * o.min <= |w|
    ensures o.unbounded || o.max == MAX_UINT32 || |w| <= k * o.max
  {
    if k > 0 {
      var u, v := CatElim(Power(l, k - 1), l, w);
      PowerLength(o, l, k - 1, u);
      assert InBounds(o, |v|);
      assert k * o.min == (k - 1) * o.min + o.min && k * o.max == (k - 1) * o.max + o.max;
    }
  }

  lemma MulMonotone(a: nat, b: nat, c: nat)
    requires a <= b
    ensures a * c <= b * c
  {
  }

  /** Even the odd corner where {0..0} times unbounded counts as unbounded is a bound. */
  lemma RepBounds(o: Occurrence, l: Lang, times: Occurrence)
    requires Bounds(o, l)
    ensures Bounds(MultiplyOccurrence(o, times), Rep(l, times))
  {
    forall w: Word | w in Rep(l, times)
      ensures InBounds(MultiplyOccurrence(o, times), |w|)
    {
      var k: nat :| times.Contains(k) && w in Power(l, k);
      PowerLength(o, l, k, w);
      MulMonotone(times.min, k, o.min);
      if !o.unbounded && !times.unbounded {
        MulMonotone(k, times.max, o.max);
        if o.max == MAX_UINT32 && times.max > 0 {
          MulMonotone(1, times.max, o.max);
        }
      }
    }
  }

  /** Every word a particle accepts is as long as its count range says. */
  lemma {:induction false} ParticleCountBounds(t: Tables, p: Particle)
    requires ValidTables(t) && ValidParticles(t, [p])
    ensures TermInRange(t.models, p.term)
    ensures Bounds(ParticleCountRange(t, p), ParticleLang(t, p))
    decreases TermHeightOr0(t.models, p.term), 0, 1
  {
    assert [p][0] == p;
    if p.term.ModelTerm? {
      ModelCountBounds(t, p.term.model);
      RepBounds(ModelCountRange(t, p.term.model), TermLang(t, p.term), p.occurs);
    } else {
      RepBounds(ONE, TermLang(t, p.term), p.occurs);
    }
  }

  lemma {:induction false} ModelCountBounds(t: Tables, id: nat)
    requires ValidTables(t) && id < |t.models|
    ensures Bounds(ModelCountRange(t, id), ModelLang(t, id))
    decreases TermHeightOr0(t.models, ModelTerm(id)), 0, 0
  {
    var m := t.models[id];
    ModelHeight(t.models, id);
    UnfoldModel(t, id);
    var body := BodyLang(t, m.kind, m.particles);
    match m.kind {
      case EmptyModel =>
      case AnyModel =>
      case Sequence =>
        SumBounds(t, m.particles);
        RepBounds(SumRange(t, m.particles), body, m.occurs);
      case Choice =>
        if m.particles != [] {
          UnionRangeBounds(t, m.particles);
        }
        RepBounds(BodyCountRange(t, m.kind, m.particles), body, m.occurs);
      case All =>
        AllBounds(t, m.particles);
        RepBounds(SumRange(t, m.particles), body, m.occurs);
    }
  }

  lemma {:induction false} SumBounds(t: Tables, ps: seq<Particle>)
    requires ValidTables(t) && ValidParticles(t, ps) && RefsInRange(t.models, ps)
    ensures Bounds(SumRange(t, ps), SequenceLang(t, ps))
    decreases Height(t.models, ps), |ps|, 2
  {
    if ps != [] {
      ValidPrefix(t, ps);
      var rest, last := ps[..|ps| - 1], ps[|ps| - 1];
      SumBounds(t, rest);
      ParticleCountBounds(t, last);
      CatBounds(SumRange(t, rest), SequenceLang(t, rest), ParticleCountRange(t, last), ParticleLang(t, last));
    }
  }

  lemma {:induction false} UnionRangeBounds(t: Tables, ps: seq<Particle>)
    requires ValidTables(t) && ValidParticles(t, ps) && RefsInRange(t.models, ps) && ps != []
    ensures Bounds(UnionRange(t, ps), ChoiceLang(t, ps))
    decreases Height(t.models, ps), |ps|, 2
  {
    ValidPrefix(t, ps);
    var rest, last := ps[..|ps| - 1], ps[|ps| - 1];
    ParticleCountBounds(t, last);
    if |ps| == 1 {
      assert rest == [] && ChoiceLang(t, rest) == EMPTY;
    } else {
      UnionRangeBounds(t, rest);
      UnionBounds(UnionRange(t, rest), ChoiceLang(t, rest), ParticleCountRange(t, last), ParticleLang(t, last));
    }
  }

  lemma AllBounds(t: Tables, ps: seq<Particle>)
    requires Acyclic(t.models) && RefsInRange(t.models, ps) && DirectOnce(ps)
    ensures Bounds(SumRange(t, ps), AllLang(t, ps))
  {
    forall w: Word | w in AllLang(t, ps)
      ensures InBounds(SumRange(t, ps), |w|)
    {
      var f :| Assignment(t, ps, w, f) && Covers(ps, f);
      AllLength(t, ps, f);
    }
  }

  predicate DirectOnce(ps: seq<Particle>) {
    forall i :: 0 <= i < |ps| ==> !ps[i].term.ModelTerm? && ps[i].occurs.max == 1 && !ps[i].occurs.unbounded && ps[i].occurs.Valid()
  }

  ghost predicate Distinct(f: seq<nat>, n: nat) {
    && (forall i :: 0 <= i < |f| ==> f[i] < n)
    && (forall i, j :: 0 <= i < j < |f| ==> f[i] != f[j])
  }

  function RemoveAt(f: seq<nat>, i: nat): (g: seq<nat>)
    requires i < |f|
    ensures |g| == |f| - 1
    ensures forall j :: 0 <= j < |g| ==> g[j] == f[if j < i then j else j + 1]
  {
    f[..i] + f[i + 1..]
  }

  lemma RemovedDistinct(f: seq<nat>, i: nat, n: nat)
    requires i < |f| && Distinct(f, n + 1) && f[i] == n
    ensures Distinct(RemoveAt(f, i), n)
  {
    var g := RemoveAt(f, i);
    forall j | 0 <= j < |g|
      ensures g[j] < n
    {
      var k := if j < i then j else j + 1;
      assert f[k] < n + 1 && f[k] != f[i];
    }
  }

  lemma RemovedKeeps(f: seq<nat>, i: nat, k: nat)
    requires i < |f| && k in f && k != f[i]
    ensures k in RemoveAt(f, i)
  {
    var j :| 0 <= j < |f| && f[j] == k;
    assert RemoveAt(f, i)[if j < i then j else j - 1] == k;
  }

  /** What is left of a choice of terms when the last term is taken away. */
  lemma DropTerm(ps: seq<Particle>, f: seq<nat>) returns (g: seq<nat>)
    requires ps != [] && Distinct(f, |ps|) && Covers(ps, f)
    ensures Distinct(g, |ps| - 1) && Covers(ps[..|ps| - 1], g)
    ensures |f| == |g| + (if |ps| - 1 in f then 1 else 0)
    ensures |ps| - 1 !in f ==> ps[|ps| - 1].occurs.min == 0
  {
    var n := |ps| - 1;
    g := f;
    if n in f {
      var i :| 0 <= i < |f| && f[i] == n;
      g := RemoveAt(f, i);
      RemovedDistinct(f, i, n);
      forall k | 0 <= k < n && ps[k].occurs.min > 0
        ensures k in g
      {
        RemovedKeeps(f, i, k);
      }
    }
  }

  /** A choice of distinct terms that takes every required one is in range. */
  lemma {:induction false} AllLength(t: Tables, ps: seq<Particle>, f: seq<nat>)
    requires Acyclic(t.models) && RefsInRange(t.models, ps) && DirectOnce(ps)
    requires Distinct(f, |ps|) && Covers(ps, f)
    ensures InBounds(SumRange(t, ps), |f|)
    decreases |ps|
  {
    assert f != [] ==> f[0] < |ps|;
    if ps != [] {
      var n := |ps| - 1;
      assert ParticleCountRange(t, ps[n]) == Occurrence(ps[n].occurs.min, 1, false);
      var g := DropTerm(ps, f);
      AllLength(t, ps[..n], g);
    }
  }
}
