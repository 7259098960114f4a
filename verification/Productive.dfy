/** Trees in which every part can take part: what the start test names then really comes
    first in some word, and the computed count range is attained. */
module ProductiveTrees {
  import opened Schema
  import opened Languages
  import opened ContentLanguage
  import opened ParticleRanges
  import opened AllGroups
  import opened Overlap
  import opened Lowering
  import opened StartLanguage
  import PositionBuilder
  import opened Extensions

  // ----- productive trees -----

  /** Below this term every leaf matches some child, no range is zero and every choice has
      an alternative. */
  predicate Productive(t: Tables, term: Term)
    requires Acyclic(t.models) && TermInRange(t.models, term)
    decreases TermHeight(t.models, term), 0, 0
  {
    if term.ModelTerm? then
      ModelHeight(t.models, term.model);
      var m := t.models[term.model];
      ProductiveRange(m) && AllProductive(t, m.particles)
    else ValidTerm(t, term) && !NothingMatches(t, term)
  }

  predicate ProductiveRange(m: ContentModel) {
    m.kind.EmptyModel? || m.kind.AnyModel? || (!m.occurs.IsZero() && (m.kind.Choice? ==> m.particles != []))
  }

  predicate AllProductive(t: Tables, ps: seq<Particle>)
    requires Acyclic(t.models) && RefsInRange(t.models, ps)
    decreases Height(t.models, ps), |ps|, 1
  {
    ps == [] || (AllProductive(t, ps[..|ps| - 1]) && !ps[|ps| - 1].occurs.IsZero() && Productive(t, ps[|ps| - 1].term))
  }

  lemma {:induction false} AllProductiveIff(t: Tables, ps: seq<Particle>)
    requires Acyclic(t.models) && RefsInRange(t.models, ps)
    ensures AllProductive(t, ps) <==> forall i :: 0 <= i < |ps| ==> !ps[i].occurs.IsZero() && Productive(t, ps[i].term)
    decreases |ps|
  {
    if ps != [] {
      AllProductiveIff(t, ps[..|ps| - 1]);
    }
  }

  lemma {:induction false} ProductiveTail(t: Tables, ps: seq<Particle>)
    requires Acyclic(t.models) && RefsInRange(t.models, ps) && ps != [] && AllProductive(t, ps)
    ensures !ps[0].occurs.IsZero() && Productive(t, ps[0].term) && AllProductive(t, ps[1..])
  {
    AllProductiveIff(t, ps);
    AllProductiveIff(t, ps[1..]);
  }

  lemma {:induction false} ProductiveNotBarren(t: Tables, term: Term)
    requires Acyclic(t.models) && TermInRange(t.models, term) && Productive(t, term)
    ensures !TermBarren(t, term)
    decreases TermHeight(t.models, term), 0, 0
  {
    if term.ModelTerm? {
      ModelHeight(t.models, term.model);
      ProductiveNoneBarren(t, t.models[term.model].particles);
    }
  }

  lemma {:induction false} ProductiveNoneBarren(t: Tables, ps: seq<Particle>)
    requires Acyclic(t.models) && RefsInRange(t.models, ps) && AllProductive(t, ps)
    ensures !SomeBarren(t, ps) && (ps != [] ==> !EachBarren(t, ps))
    decreases Height(t.models, ps), |ps|, 1
  {
    if ps != [] {
      ProductiveNoneBarren(t, ps[..|ps| - 1]);
      ProductiveNotBarren(t, ps[|ps| - 1].term);
    }
  }

  // ----- words -----

  /** A word of a sequence without barren parts. */
  lemma {:induction false} SomeSequenceWord(t: Tables, ps: seq<Particle>) returns (w: Word)
    requires ValidTables(t) && ValidParticles(t, ps) && RefsInRange(t.models, ps) && AllProductive(t, ps)
    ensures w in SequenceLang(t, ps)
  {
    ProductiveNoneBarren(t, ps);
    SequenceBarrenIff(t, ps);
    InhabitedIff(SequenceLang(t, ps));
    w :| w in SequenceLang(t, ps);
  }

  function Times(w: Word, k: nat): (r: Word)
    ensures |r| == k * |w|
    ensures k > 0 && w != [] ==> r != [] && r[0] == w[0]
  {
    if k == 0 then []
    else
      var rest := Times(w, k - 1);
      rest + w
  }

  lemma {:induction false} TimesInPower(l: Lang, w: Word, k: nat)
    requires w in l
    ensures Times(w, k) in Power(l, k)
  {
    if k > 0 {
      TimesInPower(l, w, k - 1);
      CatIntro(Power(l, k - 1), l, Times(w, k - 1), w);
    }
  }

  lemma {:induction false} TimesInRep(l: Lang, o: Occurrence, w: Word, k: nat)
    requires w in l && o.Contains(k)
    ensures Times(w, k) in Rep(l, o)
  {
    TimesInPower(l, w, k);
    RepIntro(l, o, k, Times(w, k));
  }

  /** A word of a repetition that begins like a word of the body. */
  lemma {:induction false} RepeatedStart(l: Lang, o: Occurrence, w: Word) returns (r: Word)
    requires o.Valid() && !o.IsZero() && w in l && w != []
    ensures r in Rep(l, o) && r != [] && r[0] == w[0]
  {
    var k: nat := if o.min == 0 then 1 else o.min;
    TimesInRep(l, o, w, k);
    r := Times(w, k);
  }

  // ----- the start test names only first children -----

  ghost predicate BeginsWith(l: Lang, x: Input) {
    exists w: Word :: w in l && w != [] && w[0] == x
  }

  function Named(name: QName): Input {
    Input(name, true, false)
  }

  lemma {:induction false} LeafStarted(t: Tables, term: Term, name: QName)
    requires Acyclic(t.models) && WellFormedSubstitutions(t) && !term.ModelTerm? && StartMatches(t, term, name)
    ensures BeginsWith(LeafLang(t, term), Named(name))
  {
    if term.ElementTerm? {
      HeadAgrees(t, term.element, name);
    }
    assert [Named(name)] in LeafLang(t, term);
  }

  lemma {:induction false} ParticleStarted(t: Tables, p: Particle, name: QName)
    requires Acyclic(t.models) && TermInRange(t.models, p.term) && p.occurs.Valid() && !p.occurs.IsZero()
    requires BeginsWith(TermLang(t, p.term), Named(name))
    ensures BeginsWith(ParticleLang(t, p), Named(name))
  {
    var w: Word :| w in TermLang(t, p.term) && w != [] && w[0] == Named(name);
    var r := RepeatedStart(TermLang(t, p.term), p.occurs, w);
  }

  /** A name that the start test accepts really begins a word, on a productive tree. */
  lemma {:induction false} StartsReached(t: Tables, term: Term, name: QName)
    requires ValidTables(t) && TermInRange(t.models, term) && Productive(t, term) && StartMatches(t, term, name)
    ensures BeginsWith(TermLang(t, term), Named(name))
    decreases TermHeight(t.models, term), 0, 0
  {
    if term.ModelTerm? {
      var m := t.models[term.model];
      ModelHeight(t.models, term.model);
      UnfoldModel(t, term.model);
      match m.kind {
        case Sequence =>
          SequenceStarted(t, m.particles, name);
          GroupStarted(t, m, name);
        case Choice =>
          var k := StartingMember(t, m.kind, m.particles, name);
          MemberStarted(t, m.particles, k, name);
          ChoiceStarted(t, m.particles, k, name);
          GroupStarted(t, m, name);
        case All =>
          var k := StartingMember(t, m.kind, m.particles, name);
          AllStarted(t, m.particles, k, name);
          GroupStarted(t, m, name);
        case _ =>
      }
    } else {
      LeafStarted(t, term, name);
    }
  }

  lemma {:induction false} GroupStarted(t: Tables, m: ContentModel, name: QName)
    requires Acyclic(t.models) && RefsInRange(t.models, m.particles) && m.occurs.Valid() && !m.occurs.IsZero()
    requires !m.kind.EmptyModel? && !m.kind.AnyModel?
    requires BeginsWith(BodyLang(t, m.kind, m.particles), Named(name))
    ensures BeginsWith(GroupLang(t, m), Named(name))
  {
    var l := BodyLang(t, m.kind, m.particles);
    var w: Word :| w in l && w != [] && w[0] == Named(name);
    var r := RepeatedStart(l, m.occurs, w);
  }

  lemma {:induction false} MemberStarted(t: Tables, ps: seq<Particle>, k: nat, name: QName)
    requires ValidTables(t) && ValidParticles(t, ps) && RefsInRange(t.models, ps) && AllProductive(t, ps) && k < |ps|
    requires StartMatches(t, ps[k].term, name)
    ensures BeginsWith(ParticleLang(t, ps[k]), Named(name))
    decreases Height(t.models, ps), |ps|, 1
  {
    AllProductiveIff(t, ps);
    TermHeightBound(t.models, ps, k);
    StartsReached(t, ps[k].term, name);
    ParticleStarted(t, ps[k], name);
  }

  /** The member of a choice or xs:all that starts with the name. */
  lemma {:induction false} StartingMember(t: Tables, kind: ModelKind, ps: seq<Particle>, name: QName) returns (k: nat)
    requires Acyclic(t.models) && RefsInRange(t.models, ps) && (kind.Choice? || kind.All?)
    requires GroupStartMatches(t, kind, ps, name)
    ensures k < |ps| && StartMatches(t, ps[k].term, name)
    decreases |ps|
  {
    if StartMatches(t, ps[0].term, name) {
      k := 0;
    } else {
      var j := StartingMember(t, kind, ps[1..], name);
      k := j + 1;
    }
  }

  lemma {:induction false} ChoiceStarted(t: Tables, ps: seq<Particle>, k: nat, name: QName)
    requires Acyclic(t.models) && RefsInRange(t.models, ps) && k < |ps| && BeginsWith(ParticleLang(t, ps[k]), Named(name))
    ensures BeginsWith(ChoiceLang(t, ps), Named(name))
    decreases |ps|
  {
    if k < |ps| - 1 {
      ChoiceStarted(t, ps[..|ps| - 1], k, name);
      var w: Word :| w in ChoiceLang(t, ps[..|ps| - 1]) && w != [] && w[0] == Named(name);
      assert w in ChoiceLang(t, ps);
    } else {
      var w: Word :| w in ParticleLang(t, ps[k]) && w != [] && w[0] == Named(name);
      assert w in ChoiceLang(t, ps);
    }
  }

  /** A sequence begins with its first particle, or with the rest when that may be empty. */
  lemma {:induction false} SequenceStarted(t: Tables, ps: seq<Particle>, name: QName)
    requires ValidTables(t) && ValidParticles(t, ps) && RefsInRange(t.models, ps) && AllProductive(t, ps)
    requires GroupStartMatches(t, Sequence, ps, name)
    ensures BeginsWith(SequenceLang(t, ps), Named(name))
    decreases Height(t.models, ps), |ps|, 2
  {
    SequenceFront(t, ps);
    ProductiveTail(t, ps);
    HeightOfTail(t.models, ps);
    var first, rest := ParticleLang(t, ps[0]), SequenceLang(t, ps[1..]);
    if StartMatches(t, ps[0].term, name) {
      MemberStarted(t, ps, 0, name);
      var u: Word :| u in first && u != [] && u[0] == Named(name);
      var v := SomeSequenceWord(t, ps[1..]);
      CatIntro(first, rest, u, v);
      assert (u + v)[0] == Named(name);
    } else {
      SequenceStarted(t, ps[1..], name);
      assert ValidParticles(t, [ps[0]]);
      ParticleEmptiableIff(t, ps[0]);
      var v: Word :| v in rest && v != [] && v[0] == Named(name);
      CatIntro(first, rest, [], v);
      assert [] + v == v;
    }
  }

  function CountBelow(pick: nat -> bool, n: nat): (r: nat)
    ensures r <= n
  {
    if n == 0 then 0 else CountBelow(pick, n - 1) + if pick(n - 1) then 1 else 0
  }

  /** One child for each picked term. */
  lemma {:induction false} Picked(t: Tables, ps: seq<Particle>, pick: nat -> bool) returns (w: Word, f: seq<nat>)
    requires Acyclic(t.models) && RefsInRange(t.models, ps) && AllProductive(t, ps)
    requires forall i :: 0 <= i < |ps| ==> ValidTerm(t, ps[i].term)
    ensures Assignment(t, ps, w, f) && |w| == CountBelow(pick, |ps|)
    ensures forall i :: i in PositionBuilder.Elements(f) <==> 0 <= i < |ps| && pick(i)
    decreases |ps|
  {
    if ps == [] {
      return [], [];
    }
    var n := |ps| - 1;
    w, f := Picked(t, ps[..n], pick);
    assert ValidTerm(t, ps[n].term) && n !in PositionBuilder.Elements(f);
    assert Assignment(t, ps, w, f);
    if pick(n) {
      var x := SomeChild(t, ps[n].term);
      AssignmentExtend(t, ps, w, x, f, n);
      w, f := w + [x], f + [n];
    }
  }

  function Required(ps: seq<Particle>): nat -> bool {
    (i: nat) => i < |ps| && ps[i].occurs.min > 0
  }

  lemma {:induction false} PickedAll(t: Tables, ps: seq<Particle>, pick: nat -> bool) returns (w: Word)
    requires Acyclic(t.models) && RefsInRange(t.models, ps) && AllProductive(t, ps)
    requires forall i :: 0 <= i < |ps| ==> ValidTerm(t, ps[i].term)
    requires forall i :: 0 <= i < |ps| && ps[i].occurs.min > 0 ==> pick(i)
    ensures w in AllLang(t, ps) && |w| == CountBelow(pick, |ps|)
  {
    var f;
    w, f := Picked(t, ps, pick);
    forall k | 0 <= k < |ps| && ps[k].occurs.min > 0
      ensures k in f
    {
      assert k in PositionBuilder.Elements(f);
    }
    assert Covers(ps, f);
  }

  lemma {:induction false} PutFirst(t: Tables, ps: seq<Particle>, w: Word, f: seq<nat>, x: Input, k: nat)
    requires Assignment(t, ps, w, f) && k < |ps| && k !in f && TermMatches(t, ps[k].term, x)
    ensures Assignment(t, ps, [x] + w, [k] + f)
  {
  }

  /** A child that one term matches can come first in an xs:all. */
  lemma {:induction false} FirstInAll(t: Tables, ps: seq<Particle>, k: nat, x: Input)
    requires Acyclic(t.models) && RefsInRange(t.models, ps) && AllProductive(t, ps)
    requires forall i :: 0 <= i < |ps| ==> ValidTerm(t, ps[i].term)
    requires k < |ps| && TermMatches(t, ps[k].term, x)
    ensures BeginsWith(AllLang(t, ps), x)
  {
    var pick := (i: nat) => i != k && i < |ps| && ps[i].occurs.min > 0;
    var w, f := Picked(t, ps, pick);
    assert !pick(k);
    assert k !in PositionBuilder.Elements(f);
    PutFirst(t, ps, w, f, x, k);
    forall i | 0 <= i < |ps| && ps[i].occurs.min > 0
      ensures i in [k] + f
    {
      assert i != k ==> pick(i) && i in PositionBuilder.Elements(f);
    }
    assert Covers(ps, [k] + f) && [x] + w in AllLang(t, ps);
  }

  lemma {:induction false} AllStarted(t: Tables, ps: seq<Particle>, k: nat, name: QName)
    requires ValidTables(t) && RefsInRange(t.models, ps) && AllProductive(t, ps) && k < |ps|
    requires forall i :: 0 <= i < |ps| ==> ValidTerm(t, ps[i].term)
    requires StartMatches(t, ps[k].term, name)
    ensures BeginsWith(AllLang(t, ps), Named(name))
  {
    LeafStarted(t, ps[k].term, name);
    FirstInAll(t, ps, k, Named(name));
  }

  /** On a productive tree without any groups the start test is exact. */
  lemma {:induction false} StartsIff(t: Tables, term: Term, name: QName)
    requires ValidTables(t) && TermInRange(t.models, term) && Productive(t, term) && AnyFree(t, term)
    ensures StartMatches(t, term, name) <==> exists w: Word :: w in TermLang(t, term) && w != [] && w[0].name == name
  {
    if StartMatches(t, term, name) {
      StartsReached(t, term, name);
      var w: Word :| w in TermLang(t, term) && w != [] && w[0] == Named(name);
    }
    forall w: Word | w in TermLang(t, term) && w != [] && w[0].name == name
      ensures StartMatches(t, term, name)
    {
      TermStarts(t, term, w);
    }
  }

  ghost predicate CommonFirst(t: Tables, a: Term, b: Term)
    requires Acyclic(t.models) && TermInRange(t.models, a) && TermInRange(t.models, b)
  {
    exists x :: BeginsWith(TermLang(t, a), x) && BeginsWith(TermLang(t, b), x)
  }

  /** Overlap is a common first child: on productive trees without any groups, and without
      wildcards that raise a false alarm, the test is exact. */
  lemma {:induction false} OverlapIffCommonFirst(t: Tables, a: Term, b: Term)
    requires ValidTables(t) && TermInRange(t.models, a) && TermInRange(t.models, b)
    requires Productive(t, a) && Productive(t, b) && AnyFree(t, a) && AnyFree(t, b) && NoFalseAlarms(t)
    ensures TermsOverlap(t, a, b) <==> CommonFirst(t, a, b)
  {
    TermsOverlapIff(t, a, b);
    if TermsOverlap(t, a, b) {
      var name :| StartMatches(t, a, name) && StartMatches(t, b, name);
      StartsReached(t, a, name);
      StartsReached(t, b, name);
    }
    if CommonFirst(t, a, b) {
      var x :| BeginsWith(TermLang(t, a), x) && BeginsWith(TermLang(t, b), x);
      var u: Word :| u in TermLang(t, a) && u != [] && u[0] == x;
      var v: Word :| v in TermLang(t, b) && v != [] && v[0] == x;
      CommonFirstChild(t, a, b, u, v);
    }
  }

  // ----- the count range is attained -----

  ghost predicate HasAtMost(l: Lang, n: nat) {
    exists w: Word :: w in l && |w| <= n
  }

  ghost predicate HasAtLeast(l: Lang, n: nat) {
    exists w: Word :: w in l && |w| >= n
  }

  /** A word as short as the minimum says, unless that is saturated, and one as long as the
      maximum says, if there is one. */
  ghost predicate Attained(o: Occurrence, l: Lang) {
    && (exists w: Word :: w in l)
    && (o.min < MAX_UINT32 ==> HasAtMost(l, o.min))
    && (!o.unbounded ==> HasAtLeast(l, o.max))
  }

  lemma {:induction false} CatAtLeast(a: Lang, b: Lang, n: nat, m: nat)
    requires HasAtLeast(a, n) && HasAtLeast(b, m)
    ensures HasAtLeast(Cat(a, b), n + m)
  {
    var u: Word :| u in a && |u| >= n;
    var v: Word :| v in b && |v| >= m;
    CatIntro(a, b, u, v);
    assert |u + v| >= n + m;
  }

  lemma {:induction false} SumAttained(o: Occurrence, a: Lang, p: Occurrence, b: Lang)
    requires Attained(o, a) && Attained(p, b)
    ensures Attained(AddOccurrenceRanges(o, p), Cat(a, b))
  {
    var r := AddOccurrenceRanges(o, p);
    if r.min < MAX_UINT32 {
      var u: Word :| u in a && |u| <= o.min;
      var v: Word :| v in b && |v| <= p.min;
      CatIntro(a, b, u, v);
      assert |u + v| <= r.min;
    }
    var u: Word :| u in a;
    var v: Word :| v in b;
    CatIntro(a, b, u, v);
    if !r.unbounded {
      CatAtLeast(a, b, o.max, p.max);
      var w: Word :| w in Cat(a, b) && |w| >= o.max + p.max;
    }
  }

  lemma {:induction false} UnionAttained(o: Occurrence, a: Lang, p: Occurrence, b: Lang)
    requires Attained(o, a) && Attained(p, b)
    ensures Attained(UnionOccurrenceRanges(o, p), a + b)
  {
    forall n: nat
      ensures HasAtLeast(a, n) || HasAtLeast(b, n) ==> HasAtLeast(a + b, n)
      ensures HasAtMost(a, n) || HasAtMost(b, n) ==> HasAtMost(a + b, n)
    {
      if HasAtLeast(a, n) {
        var w: Word :| w in a && |w| >= n;
        assert w in a + b;
      }
      if HasAtLeast(b, n) {
        var w: Word :| w in b && |w| >= n;
        assert w in a + b;
      }
      if HasAtMost(a, n) {
        var w: Word :| w in a && |w| <= n;
        assert w in a + b;
      }
      if HasAtMost(b, n) {
        var w: Word :| w in b && |w| <= n;
        assert w in a + b;
      }
    }
  }

  lemma {:induction false} RepAtMost(o: Occurrence, l: Lang, times: Occurrence)
    requires Attained(o, l) && times.Valid() && SaturatingMul(o.min, times.min) < MAX_UINT32
    ensures HasAtMost(Rep(l, times), SaturatingMul(o.min, times.min))
  {
    if times.min == 0 {
      RepIntro(l, times, 0, []);
      assert [] in Rep(l, times);
    } else {
      MulMonotone(1, times.min, o.min);
      var w: Word :| w in l && |w| <= o.min;
      TimesInRep(l, times, w, times.min);
      MulMonotone(|w|, o.min, times.min);
      assert |Times(w, times.min)| <= o.min * times.min;
    }
  }

  lemma {:induction false} RepAtLeast(l: Lang, times: Occurrence, k: nat, n: nat)
    requires HasAtLeast(l, n) && times.Contains(k)
    ensures HasAtLeast(Rep(l, times), n * k)
  {
    var w: Word :| w in l && |w| >= n;
    TimesInRep(l, times, w, k);
    MulMonotone(n, |w|, k);
    assert |Times(w, k)| >= n * k;
  }

  lemma {:induction false} RepAttained(o: Occurrence, l: Lang, times: Occurrence)
    requires Attained(o, l) && times.Valid()
    ensures Attained(MultiplyOccurrence(o, times), Rep(l, times))
  {
    var r := MultiplyOccurrence(o, times);
    var u: Word :| u in l;
    TimesInRep(l, times, u, times.min);
    if r.min < MAX_UINT32 {
      RepAtMost(o, l, times);
    }
    if !r.unbounded {
      RepAtLeast(l, times, times.max, o.max);
      var w: Word :| w in Rep(l, times) && |w| >= o.max * times.max;
    }
  }

  function TermRange(t: Tables, term: Term): Occurrence
    requires Acyclic(t.models)
  {
    if term.ModelTerm? then ModelCountRange(t, term.model) else ONE
  }

  lemma {:induction false} TermAttained(t: Tables, term: Term)
    requires ValidTables(t) && TermInRange(t.models, term) && Productive(t, term)
    ensures Attained(TermRange(t, term), TermLang(t, term))
    decreases TermHeight(t.models, term), 0, 0
  {
    if term.ModelTerm? {
      var m := t.models[term.model];
      ModelHeight(t.models, term.model);
      UnfoldModel(t, term.model);
      GroupAttained(t, m);
    } else {
      var x := SomeChild(t, term);
      assert [x] in LeafLang(t, term) && |[x]| == 1;
    }
  }

  lemma {:induction false} GroupAttained(t: Tables, m: ContentModel)
    requires ValidTables(t) && ValidModel(t, m) && RefsInRange(t.models, m.particles)
    requires ProductiveRange(m) && AllProductive(t, m.particles)
    ensures Attained(MultiplyOccurrence(BodyCountRange(t, m.kind, m.particles), m.occurs), GroupLang(t, m))
    decreases Height(t.models, m.particles), |m.particles|, 4
  {
    var body := BodyLang(t, m.kind, m.particles);
    match m.kind {
      case EmptyModel => EmptyAttained(body);
      case AnyModel => AnyAttained(body);
      case _ =>
        BodyAttained(t, m.kind, m.particles);
        RepAttained(BodyCountRange(t, m.kind, m.particles), body, m.occurs);
    }
  }

  lemma {:induction false} BodyAttained(t: Tables, kind: ModelKind, ps: seq<Particle>)
    requires ValidTables(t) && ValidParticles(t, ps) && RefsInRange(t.models, ps) && AllProductive(t, ps)
    requires !kind.EmptyModel? && !kind.AnyModel? && (kind.Choice? ==> ps != []) && (kind.All? ==> DirectOnce(ps))
    ensures Attained(BodyCountRange(t, kind, ps), BodyLang(t, kind, ps))
    decreases Height(t.models, ps), |ps|, 3
  {
    match kind {
      case Sequence => SequenceAttained(t, ps);
      case Choice => ChoiceAttained(t, ps);
      case _ => AllAttained(t, ps);
    }
  }

  lemma {:induction false} EmptyAttained(l: Lang)
    requires [] in l
    ensures Attained(Occurrence(0, 0, false), l)
  {
    var e: Word := [];
    assert |e| == 0;
  }

  lemma {:induction false} AnyAttained(l: Lang)
    requires forall w: Word :: w in l
    ensures Attained(Occurrence(0, 0, true), l)
  {
    var e: Word := [];
    assert e in l && |e| == 0;
  }

  lemma {:induction false} ParticleAttained(t: Tables, ps: seq<Particle>, i: nat)
    requires ValidTables(t) && ValidParticles(t, ps) && RefsInRange(t.models, ps) && i == |ps| - 1
    requires AllProductive(t, ps)
    ensures Attained(ParticleCountRange(t, ps[i]), ParticleLang(t, ps[i]))
    decreases Height(t.models, ps), |ps|, 1
  {
    TermHeightBound(t.models, ps, i);
    TermAttained(t, ps[i].term);
    RepAttained(TermRange(t, ps[i].term), TermLang(t, ps[i].term), ps[i].occurs);
  }

  lemma {:induction false} SequenceAttained(t: Tables, ps: seq<Particle>)
    requires ValidTables(t) && ValidParticles(t, ps) && RefsInRange(t.models, ps) && AllProductive(t, ps)
    ensures Attained(SumRange(t, ps), SequenceLang(t, ps))
    decreases Height(t.models, ps), |ps|, 2
  {
    if ps == [] {
      EmptyAttained(SequenceLang(t, ps));
    } else {
      var n := |ps| - 1;
      SequenceAttained(t, ps[..n]);
      ParticleAttained(t, ps, n);
      SumAttained(SumRange(t, ps[..n]), SequenceLang(t, ps[..n]), ParticleCountRange(t, ps[n]), ParticleLang(t, ps[n]));
    }
  }

  lemma {:induction false} ChoiceAttained(t: Tables, ps: seq<Particle>)
    requires ValidTables(t) && ValidParticles(t, ps) && RefsInRange(t.models, ps) && AllProductive(t, ps)
    requires ps != []
    ensures Attained(UnionRange(t, ps), ChoiceLang(t, ps))
    decreases Height(t.models, ps), |ps|, 2
  {
    var n := |ps| - 1;
    ParticleAttained(t, ps, n);
    if n == 0 {
      assert ps[..0] == [] && ChoiceLang(t, ps) == ParticleLang(t, ps[0]);
    } else {
      ChoiceAttained(t, ps[..n]);
      UnionAttained(UnionRange(t, ps[..n]), ChoiceLang(t, ps[..n]), ParticleCountRange(t, ps[n]), ParticleLang(t, ps[n]));
    }
  }

  /** The range of an xs:all counts its required terms and all its terms. */
  lemma {:induction false} AllCounts(t: Tables, ps: seq<Particle>, pick: nat -> bool)
    requires Acyclic(t.models) && RefsInRange(t.models, ps) && DirectOnce(ps)
    requires forall i :: 0 <= i < |ps| && pick(i) ==> ps[i].occurs.min > 0
    ensures var r := SumRange(t, ps);
            !r.unbounded && r.max <= |ps| && (r.min < MAX_UINT32 ==> CountBelow(pick, |ps|) <= r.min)
    decreases |ps|
  {
    if ps != [] {
      var n := |ps| - 1;
      AllCounts(t, ps[..n], pick);
      assert ParticleCountRange(t, ps[n]) == Occurrence(ps[n].occurs.min, 1, false);
    }
  }

  lemma {:induction false} CountEvery(n: nat)
    ensures CountBelow(i => true, n) == n
  {
    if n > 0 {
      CountEvery(n - 1);
    }
  }

  lemma {:induction false} AllAttained(t: Tables, ps: seq<Particle>)
    requires Acyclic(t.models) && RefsInRange(t.models, ps) && AllProductive(t, ps) && DirectOnce(ps)
    requires forall i :: 0 <= i < |ps| ==> ValidTerm(t, ps[i].term)
    ensures Attained(SumRange(t, ps), AllLang(t, ps)) && HasAtLeast(AllLang(t, ps), |ps|)
  {
    AllCounts(t, ps, Required(ps));
    CountEvery(|ps|);
    var w := PickedAll(t, ps, Required(ps));
    var v := PickedAll(t, ps, i => true);
  }

  // ----- words of any length -----

  /** Some child can occur below this term. */
  predicate Filled(t: Tables, term: Term)
    requires Acyclic(t.models) && TermInRange(t.models, term)
    decreases TermHeight(t.models, term), 0, 0
  {
    if term.ModelTerm? then
      ModelHeight(t.models, term.model);
      var m := t.models[term.model];
      m.kind.AnyModel? || AnyFilled(t, m.particles)
    else true
  }

  predicate AnyFilled(t: Tables, ps: seq<Particle>)
    requires Acyclic(t.models) && RefsInRange(t.models, ps)
    decreases Height(t.models, ps), |ps|, 1
  {
    ps != [] && (AnyFilled(t, ps[..|ps| - 1]) || Filled(t, ps[|ps| - 1].term))
  }

  /** Below this term something that has a child repeats without bound. */
  predicate Endless(t: Tables, term: Term)
    requires Acyclic(t.models) && TermInRange(t.models, term)
    decreases TermHeight(t.models, term), 0, 0
  {
    if term.ModelTerm? then
      ModelHeight(t.models, term.model);
      var m := t.models[term.model];
      m.kind.AnyModel? || (m.occurs.unbounded && AnyFilled(t, m.particles)) || AnyEndless(t, m.particles)
    else false
  }

  predicate AnyEndless(t: Tables, ps: seq<Particle>)
    requires Acyclic(t.models) && RefsInRange(t.models, ps)
    decreases Height(t.models, ps), |ps|, 1
  {
    ps != []
    && (var p := ps[|ps| - 1];
        AnyEndless(t, ps[..|ps| - 1]) || Endless(t, p.term) || (p.occurs.unbounded && Filled(t, p.term)))
  }

  ghost predicate HasAllLengths(l: Lang) {
    forall n: nat :: HasAtLeast(l, n)
  }

  ghost predicate NoLonger(l: Lang, n: nat) {
    forall w: Word :: w in l ==> |w| <= n
  }

  /** What filled and endless mean for a language that has a word. */
  ghost predicate Sized(filled: bool, endless: bool, l: Lang) {
    && (exists w: Word :: w in l)
    && (if filled then HasAtLeast(l, 1) else NoLonger(l, 0))
    && (if endless then HasAllLengths(l) else exists n: nat :: NoLonger(l, n))
  }

  lemma {:induction false} CatSized(f: bool, e: bool, a: Lang, g: bool, d: bool, b: Lang)
    requires Sized(f, e, a) && Sized(g, d, b)
    ensures Sized(f || g, e || d, Cat(a, b))
  {
    var u: Word :| u in a;
    var v: Word :| v in b;
    CatIntro(a, b, u, v);
    forall n: nat
      ensures HasAtLeast(a, n) || HasAtLeast(b, n) ==> HasAtLeast(Cat(a, b), n)
    {
      assert HasAtLeast(a, 0) && HasAtLeast(b, 0);
      if HasAtLeast(a, n) {
        CatAtLeast(a, b, n, 0);
      } else if HasAtLeast(b, n) {
        CatAtLeast(a, b, 0, n);
      }
    }
    forall n: nat, m: nat | NoLonger(a, n) && NoLonger(b, m)
      ensures NoLonger(Cat(a, b), n + m)
    {
      CatNoLonger(a, b, n, m);
    }
    if !e && !d {
      var n: nat :| NoLonger(a, n);
      var m: nat :| NoLonger(b, m);
      assert NoLonger(Cat(a, b), n + m);
    }
  }

  lemma {:induction false} CatNoLonger(a: Lang, b: Lang, n: nat, m: nat)
    requires NoLonger(a, n) && NoLonger(b, m)
    ensures NoLonger(Cat(a, b), n + m)
  {
    forall w: Word | w in Cat(a, b)
      ensures |w| <= n + m
    {
      var u, v := CatElim(a, b, w);
    }
  }

  lemma {:induction false} UnionSized(f: bool, e: bool, a: Lang, g: bool, d: bool, b: Lang)
    requires Sized(f, e, a) && Sized(g, d, b)
    ensures Sized(f || g, e || d, a + b)
  {
    var u: Word :| u in a;
    assert u in a + b;
    forall n: nat
      ensures HasAtLeast(a, n) || HasAtLeast(b, n) ==> HasAtLeast(a + b, n)
    {
      if HasAtLeast(a, n) {
        var w: Word :| w in a && |w| >= n;
        assert w in a + b;
      } else if HasAtLeast(b, n) {
        var w: Word :| w in b && |w| >= n;
        assert w in a + b;
      }
    }
    if !e && !d {
      var n: nat :| NoLonger(a, n);
      var m: nat :| NoLonger(b, m);
      assert NoLonger(a + b, n + m);
    }
  }

  lemma {:induction false} PowerNoLonger(l: Lang, k: nat, n: nat)
    requires NoLonger(l, n)
    ensures NoLonger(Power(l, k), k * n)
  {
    if k > 0 {
      PowerNoLonger(l, k - 1, n);
      CatNoLonger(Power(l, k - 1), l, (k - 1) * n, n);
      assert (k - 1) * n + n == k * n;
    }
  }

  lemma {:induction false} RepNoLonger(l: Lang, o: Occurrence, n: nat)
    requires NoLonger(l, n) && (o.unbounded ==> n == 0)
    ensures NoLonger(Rep(l, o), o.max * n)
  {
    forall w: Word | w in Rep(l, o)
      ensures |w| <= o.max * n
    {
      var k: nat :| o.Contains(k) && w in Power(l, k);
      PowerNoLonger(l, k, n);
      if !o.unbounded {
        MulMonotone(k, o.max, n);
      }
    }
  }

  lemma {:induction false} RepLonger(l: Lang, o: Occurrence, n: nat)
    requires o.Valid() && !o.IsZero() && HasAtLeast(l, n)
    ensures HasAtLeast(Rep(l, o), n)
  {
    var k: nat := if o.min == 0 then 1 else o.min;
    RepAtLeast(l, o, k, n);
    MulMonotone(1, k, n);
    var w: Word :| w in Rep(l, o) && |w| >= n * k;
  }

  lemma {:induction false} RepAllLengths(l: Lang, o: Occurrence)
    requires o.Valid() && !o.IsZero() && (HasAllLengths(l) || (o.unbounded && HasAtLeast(l, 1)))
    ensures HasAllLengths(Rep(l, o))
  {
    forall n: nat
      ensures HasAtLeast(Rep(l, o), n)
    {
      if HasAllLengths(l) {
        RepLonger(l, o, n);
      } else {
        RepAtLeast(l, o, o.min + n, 1);
        var w: Word :| w in Rep(l, o) && |w| >= o.min + n;
      }
    }
  }

  lemma {:induction false} RepSized(f: bool, e: bool, l: Lang, o: Occurrence)
    requires Sized(f, e, l) && o.Valid() && !o.IsZero()
    ensures Sized(f, e || (o.unbounded && f), Rep(l, o))
  {
    var u: Word :| u in l;
    TimesInRep(l, o, u, o.min);
    if f {
      RepLonger(l, o, 1);
    } else {
      RepNoLonger(l, o, 0);
    }
    if e || (o.unbounded && f) {
      RepAllLengths(l, o);
    } else if f {
      var n: nat :| NoLonger(l, n);
      RepNoLonger(l, o, n);
    }
  }

  lemma {:induction false} TermSized(t: Tables, term: Term)
    requires ValidTables(t) && TermInRange(t.models, term) && Productive(t, term)
    ensures Sized(Filled(t, term), Endless(t, term), TermLang(t, term))
    decreases TermHeight(t.models, term), 0, 0
  {
    if term.ModelTerm? {
      var m := t.models[term.model];
      ModelHeight(t.models, term.model);
      UnfoldModel(t, term.model);
      var body := BodyLang(t, m.kind, m.particles);
      match m.kind {
        case EmptyModel =>
          assert !AnyFilled(t, m.particles) && !AnyEndless(t, m.particles);
          EmptySized(body);
        case AnyModel => AnySized(body);
        case _ =>
          BodySized(t, m.kind, m.particles);
          RepSized(AnyFilled(t, m.particles), AnyEndless(t, m.particles), body, m.occurs);
      }
    } else {
      var x := SomeChild(t, term);
      assert [x] in LeafLang(t, term) && |[x]| == 1;
      assert NoLonger(LeafLang(t, term), 1);
    }
  }

  lemma {:induction false} EmptySized(l: Lang)
    requires l == EPSILON
    ensures Sized(false, false, l)
  {
    var e: Word := [];
    assert e in l && NoLonger(l, 0);
  }

  lemma {:induction false} AnySized(l: Lang)
    requires forall w: Word :: w in l
    ensures Sized(true, true, l)
  {
    forall n: nat
      ensures HasAtLeast(l, n)
    {
      var w: Word := seq(n, _ => Named(QName("", "")));
      assert w in l && |w| >= n;
    }
    assert HasAtLeast(l, 1);
  }

  lemma {:induction false} BodySized(t: Tables, kind: ModelKind, ps: seq<Particle>)
    requires ValidTables(t) && ValidParticles(t, ps) && RefsInRange(t.models, ps) && AllProductive(t, ps)
    requires !kind.EmptyModel? && !kind.AnyModel? && (kind.Choice? ==> ps != []) && (kind.All? ==> DirectOnce(ps))
    ensures Sized(AnyFilled(t, ps), AnyEndless(t, ps), BodyLang(t, kind, ps))
    decreases Height(t.models, ps), |ps|, 3
  {
    match kind {
      case Sequence => SequenceSized(t, ps);
      case Choice => ChoiceSized(t, ps);
      case _ => AllSized(t, ps);
    }
  }

  lemma {:induction false} ParticleSized(t: Tables, ps: seq<Particle>, i: nat)
    requires ValidTables(t) && ValidParticles(t, ps) && RefsInRange(t.models, ps) && i == |ps| - 1 && AllProductive(t, ps)
    ensures var p := ps[i];
            Sized(Filled(t, p.term), Endless(t, p.term) || (p.occurs.unbounded && Filled(t, p.term)), ParticleLang(t, p))
    decreases Height(t.models, ps), |ps|, 1
  {
    TermHeightBound(t.models, ps, i);
    TermSized(t, ps[i].term);
    RepSized(Filled(t, ps[i].term), Endless(t, ps[i].term), TermLang(t, ps[i].term), ps[i].occurs);
  }

  lemma {:induction false} SequenceSized(t: Tables, ps: seq<Particle>)
    requires ValidTables(t) && ValidParticles(t, ps) && RefsInRange(t.models, ps) && AllProductive(t, ps)
    ensures Sized(AnyFilled(t, ps), AnyEndless(t, ps), SequenceLang(t, ps))
    decreases Height(t.models, ps), |ps|, 2
  {
    if ps == [] {
      EmptySized(SequenceLang(t, ps));
    } else {
      var n := |ps| - 1;
      var p := ps[n];
      SequenceSized(t, ps[..n]);
      ParticleSized(t, ps, n);
      CatSized(AnyFilled(t, ps[..n]), AnyEndless(t, ps[..n]), SequenceLang(t, ps[..n]), Filled(t, p.term),
               Endless(t, p.term) || (p.occurs.unbounded && Filled(t, p.term)), ParticleLang(t, p));
    }
  }

  lemma {:induction false} ChoiceSized(t: Tables, ps: seq<Particle>)
    requires ValidTables(t) && ValidParticles(t, ps) && RefsInRange(t.models, ps) && AllProductive(t, ps) && ps != []
    ensures Sized(AnyFilled(t, ps), AnyEndless(t, ps), ChoiceLang(t, ps))
    decreases Height(t.models, ps), |ps|, 2
  {
    var n := |ps| - 1;
    var p := ps[n];
    ParticleSized(t, ps, n);
    if n == 0 {
      assert ps[..0] == [] && ChoiceLang(t, ps) == ParticleLang(t, p);
      assert !AnyFilled(t, ps[..0]) && !AnyEndless(t, ps[..0]);
    } else {
      ChoiceSized(t, ps[..n]);
      UnionSized(AnyFilled(t, ps[..n]), AnyEndless(t, ps[..n]), ChoiceLang(t, ps[..n]), Filled(t, p.term),
                 Endless(t, p.term) || (p.occurs.unbounded && Filled(t, p.term)), ParticleLang(t, p));
    }
  }

  lemma {:induction false} DirectFilled(t: Tables, ps: seq<Particle>)
    requires Acyclic(t.models) && RefsInRange(t.models, ps) && DirectOnce(ps)
    ensures AnyFilled(t, ps) == (ps != []) && !AnyEndless(t, ps)
    decreases |ps|
  {
    if ps != [] {
      DirectFilled(t, ps[..|ps| - 1]);
    }
  }

  lemma {:induction false} AllSized(t: Tables, ps: seq<Particle>)
    requires Acyclic(t.models) && RefsInRange(t.models, ps) && AllProductive(t, ps) && DirectOnce(ps)
    requires forall i :: 0 <= i < |ps| ==> ValidTerm(t, ps[i].term)
    ensures Sized(AnyFilled(t, ps), AnyEndless(t, ps), AllLang(t, ps))
  {
    DirectFilled(t, ps);
    AllAttained(t, ps);
    forall w: Word | w in AllLang(t, ps)
      ensures |w| <= |ps|
    {
      var f :| Assignment(t, ps, w, f) && Covers(ps, f);
      AllShort(ps, f);
    }
    assert NoLonger(AllLang(t, ps), |ps|);
  }

  lemma {:induction false} AllShort(ps: seq<Particle>, f: seq<nat>)
    requires Distinct(f, |ps|) && Covers(ps, f)
    ensures |f| <= |ps|
    decreases |ps|
  {
    assert |f| > 0 ==> f[0] < |ps|;
    if ps != [] {
      var g := DropTerm(ps, f);
      AllShort(ps[..|ps| - 1], g);
    }
  }

  // ----- the computed range is the best one -----

  /** On productive trees some word is as short, and some as long, as the range says. A range
      without a maximum is right exactly when something that has a child repeats without bound. */
  lemma {:induction false} ModelCountAttained(t: Tables, id: nat)
    requires ValidTables(t) && id < |t.models| && Productive(t, ModelTerm(id))
    ensures var r := ModelCountRange(t, id);
            && (r.min < MAX_UINT32 ==> exists w: Word :: w in ModelLang(t, id) && |w| == r.min)
            && (!r.unbounded && r.max < MAX_UINT32 ==> exists w: Word :: w in ModelLang(t, id) && |w| == r.max)
    ensures HasAllLengths(ModelLang(t, id)) <==> Endless(t, ModelTerm(id))
    ensures !Endless(t, ModelTerm(id)) <==> exists n: nat :: NoLonger(ModelLang(t, id), n)
  {
    var r, l := ModelCountRange(t, id), ModelLang(t, id);
    TermAttained(t, ModelTerm(id));
    TermSized(t, ModelTerm(id));
    ModelCountBounds(t, id);
    if r.min < MAX_UINT32 {
      var w: Word :| w in l && |w| <= r.min;
      assert InBounds(r, |w|);
    }
    if !r.unbounded && r.max < MAX_UINT32 {
      var w: Word :| w in l && |w| >= r.max;
      assert InBounds(r, |w|);
    }
    if HasAllLengths(l) {
      forall n: nat
        ensures !NoLonger(l, n)
      {
        assert HasAtLeast(l, n + 1);
      }
    }
  }

  /** An empty sequence that repeats without bound: the range has no maximum, and only the
      empty word is accepted. */
  lemma {:induction false} IdleRepeat()
    ensures var t := Tables([], [], [], map[], [ContentModel(Sequence, [], Occurrence(0, 0, true), [], false)]);
            ValidTables(t) && ModelCountRange(t, 0).unbounded && forall w: Word :: w in ModelLang(t, 0) ==> w == []
  {
    var t := Tables([], [], [], map[], [ContentModel(Sequence, [], Occurrence(0, 0, true), [], false)]);
    assert Ranked(t.models, [0]);
    TermSized(t, ModelTerm(0));
  }
}
