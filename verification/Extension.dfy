/** When an extension accepts exactly the words of its base followed by the words of its
    own content. */
module Extensions {
  import opened Schema
  import opened Languages
  import opened ContentLanguage
  import opened ParticleRanges
  import opened AllGroups
  import opened CountedRows
  import opened Overlap
  import opened Lowering
  import opened StartLanguage

  ghost predicate Inhabited(l: Lang) {
    exists w :: w in l
  }

  lemma InhabitedIff(l: Lang)
    ensures Inhabited(l) <==> l != EMPTY
  {
    if !Inhabited(l) {
      assert l == EMPTY;
    }
  }

  // ----- content that accepts nothing -----

  predicate NoNamespace(s: NamespaceSet) {
    match s
    case TargetNamespace(namespaces) => namespaces == []
    case NamespaceList(namespaces) => namespaces == []
    case _ => false
  }

  /** A wildcard without namespaces: no child matches it. */
  predicate NothingMatches(t: Tables, term: Term) {
    term.WildcardTerm? && term.wildcard < |t.wildcards| && NoNamespace(t.wildcards[term.wildcard].allowed)
  }

  lemma SomeNamespace(s: NamespaceSet) returns (ns: string)
    requires !NoNamespace(s)
    ensures AllowsNamespace(s, ns)
  {
    match s {
      case AnyNamespace => ns := "";
      case OtherNamespace(other) => ns := other + "a";
      case LocalOnly => ns := "";
      case TargetNamespace(namespaces) => ns := namespaces[0];
      case NamespaceList(namespaces) => ns := namespaces[0];
    }
  }

  lemma SomeChild(t: Tables, term: Term) returns (x: Input)
    requires ValidTerm(t, term) && !NothingMatches(t, term)
    ensures TermMatches(t, term, x)
  {
    match term {
      case ElementTerm(id) => x := Input(t.elements[id], true, false);
      case WildcardTerm(id) =>
        var ns := SomeNamespace(t.wildcards[id].allowed);
        x := Input(QName(ns, ""), true, false);
    }
  }

  /** The term accepts nothing: a required group of required alternatives that accept
      nothing, a required sequence or xs:all with such a part, or a wildcard without
      namespaces. */
  predicate TermBarren(t: Tables, term: Term)
    requires Acyclic(t.models) && TermInRange(t.models, term)
    decreases TermHeight(t.models, term), 0, 0
  {
    if term.ModelTerm? then
      ModelHeight(t.models, term.model);
      GroupBarren(t, t.models[term.model])
    else NothingMatches(t, term)
  }

  predicate GroupBarren(t: Tables, m: ContentModel)
    requires Acyclic(t.models) && RefsInRange(t.models, m.particles)
    decreases Height(t.models, m.particles), |m.particles|, 3
  {
    && m.occurs.min > 0
    && match m.kind
       case Sequence => SomeBarren(t, m.particles)
       case Choice => EachBarren(t, m.particles)
       case All => SomeBarren(t, m.particles)
       case _ => false
  }

  predicate ParticleBarren(t: Tables, p: Particle)
    requires Acyclic(t.models) && TermInRange(t.models, p.term)
    decreases TermHeight(t.models, p.term), 0, 1
  {
    p.occurs.min > 0 && TermBarren(t, p.term)
  }

  predicate SomeBarren(t: Tables, ps: seq<Particle>)
    requires Acyclic(t.models) && RefsInRange(t.models, ps)
    decreases Height(t.models, ps), |ps|, 2
  {
    ps != [] && (SomeBarren(t, ps[..|ps| - 1]) || ParticleBarren(t, ps[|ps| - 1]))
  }

  predicate EachBarren(t: Tables, ps: seq<Particle>)
    requires Acyclic(t.models) && RefsInRange(t.models, ps)
    decreases Height(t.models, ps), |ps|, 2
  {
    ps == [] || (EachBarren(t, ps[..|ps| - 1]) && ParticleBarren(t, ps[|ps| - 1]))
  }

  predicate Barren(t: Tables, id: nat)
    requires Acyclic(t.models) && id < |t.models|
  {
    TermBarren(t, ModelTerm(id))
  }

  // ----- barren is empty -----

  lemma CatEmptyIff(a: Lang, b: Lang)
    ensures Cat(a, b) == EMPTY <==> a == EMPTY || b == EMPTY
  {
    InhabitedIff(a);
    InhabitedIff(b);
    if a == EMPTY {
      CatWithEmpty(b);
    } else if b == EMPTY {
      CatWithEmpty(a);
    } else {
      var u :| u in a;
      var v :| v in b;
      CatIntro(a, b, u, v);
    }
  }

  lemma {:induction false} PowerEmptyIff(l: Lang, k: nat)
    ensures Power(l, k) == EMPTY <==> l == EMPTY && k > 0
  {
    if k == 0 {
      assert [] in Power(l, 0);
    } else {
      PowerEmptyIff(l, k - 1);
      CatEmptyIff(Power(l, k - 1), l);
    }
  }

  lemma RepEmptyIff(l: Lang, o: Occurrence)
    requires o.Valid()
    ensures Rep(l, o) == EMPTY <==> l == EMPTY && o.min > 0
  {
    if l == EMPTY {
      RepOfEmpty(o);
      assert [] in EPSILON;
    } else {
      PowerEmptyIff(l, o.min);
      InhabitedIff(Power(l, o.min));
      var w :| w in Power(l, o.min);
      RepIntro(l, o, o.min, w);
    }
  }

  lemma UnionEmptyIff(a: Lang, b: Lang)
    ensures a + b == EMPTY <==> a == EMPTY && b == EMPTY
  {
    InhabitedIff(a);
    InhabitedIff(b);
    InhabitedIff(a + b);
    if Inhabited(a) {
      var u :| u in a;
      assert u in a + b;
    }
    if Inhabited(b) {
      var v :| v in b;
      assert v in a + b;
    }
  }

  lemma LeafBarrenIff(t: Tables, term: Term)
    requires ValidTerm(t, term)
    ensures LeafLang(t, term) == EMPTY <==> NothingMatches(t, term)
  {
    if NothingMatches(t, term) {
      assert forall x :: !TermMatches(t, term, x);
      assert LeafLang(t, term) == EMPTY;
    } else {
      var x := SomeChild(t, term);
      assert [x] in LeafLang(t, term);
    }
  }

  lemma {:induction false} TermBarrenIff(t: Tables, term: Term)
    requires ValidTables(t) && TermInRange(t.models, term) && (!term.ModelTerm? ==> ValidTerm(t, term))
    ensures TermLang(t, term) == EMPTY <==> TermBarren(t, term)
    decreases TermHeight(t.models, term), 0, 0
  {
    if term.ModelTerm? {
      ModelHeight(t.models, term.model);
      UnfoldModel(t, term.model);
      GroupBarrenIff(t, t.models[term.model]);
    } else {
      LeafBarrenIff(t, term);
    }
  }

  lemma {:induction false} GroupBarrenIff(t: Tables, m: ContentModel)
    requires ValidTables(t) && ValidModel(t, m) && RefsInRange(t.models, m.particles)
    ensures GroupLang(t, m) == EMPTY <==> GroupBarren(t, m)
    decreases Height(t.models, m.particles), |m.particles|, 3
  {
    match m.kind {
      case EmptyModel => assert [] in GroupLang(t, m);
      case AnyModel => assert [] in GroupLang(t, m);
      case Sequence =>
        SequenceBarrenIff(t, m.particles);
        RepEmptyIff(SequenceLang(t, m.particles), m.occurs);
      case Choice =>
        ChoiceBarrenIff(t, m.particles);
        RepEmptyIff(ChoiceLang(t, m.particles), m.occurs);
      case All =>
        AllBarrenIff(t, m.particles);
        RepEmptyIff(AllLang(t, m.particles), m.occurs);
    }
  }

  lemma {:induction false} SequenceBarrenIff(t: Tables, ps: seq<Particle>)
    requires ValidTables(t) && ValidParticles(t, ps) && RefsInRange(t.models, ps)
    ensures SequenceLang(t, ps) == EMPTY <==> SomeBarren(t, ps)
    decreases Height(t.models, ps), |ps|, 2
  {
    if ps == [] {
      assert [] in SequenceLang(t, ps);
    } else {
      var n := |ps| - 1;
      SequenceBarrenIff(t, ps[..n]);
      ParticleBarrenIff(t, ps, n);
      CatEmptyIff(SequenceLang(t, ps[..n]), ParticleLang(t, ps[n]));
    }
  }

  lemma {:induction false} ChoiceBarrenIff(t: Tables, ps: seq<Particle>)
    requires ValidTables(t) && ValidParticles(t, ps) && RefsInRange(t.models, ps)
    ensures ChoiceLang(t, ps) == EMPTY <==> EachBarren(t, ps)
    decreases Height(t.models, ps), |ps|, 2
  {
    if ps != [] {
      var n := |ps| - 1;
      ChoiceBarrenIff(t, ps[..n]);
      ParticleBarrenIff(t, ps, n);
      UnionEmptyIff(ChoiceLang(t, ps[..n]), ParticleLang(t, ps[n]));
    }
  }

  lemma {:induction false} ParticleBarrenIff(t: Tables, ps: seq<Particle>, i: nat)
    requires ValidTables(t) && ValidParticles(t, ps) && RefsInRange(t.models, ps) && i < |ps|
    ensures ParticleLang(t, ps[i]) == EMPTY <==> ParticleBarren(t, ps[i])
    decreases Height(t.models, ps), |ps|, 1
  {
    TermHeightBound(t.models, ps, i);
    TermBarrenIff(t, ps[i].term);
    RepEmptyIff(TermLang(t, ps[i].term), ps[i].occurs);
  }

  /** One child for each required term. */
  lemma {:induction false} RequiredChildren(t: Tables, ps: seq<Particle>) returns (w: Word, f: seq<nat>)
    requires Acyclic(t.models) && RefsInRange(t.models, ps) && !SomeBarren(t, ps)
    requires forall i :: 0 <= i < |ps| ==> ValidTerm(t, ps[i].term)
    ensures Assignment(t, ps, w, f) && Covers(ps, f)
    decreases |ps|
  {
    if ps == [] {
      return [], [];
    }
    var n := |ps| - 1;
    w, f := RequiredChildren(t, ps[..n]);
    assert ValidTerm(t, ps[n].term) && !ParticleBarren(t, ps[n]) && n !in f;
    assert Assignment(t, ps, w, f);
    if ps[n].occurs.min > 0 {
      var x := SomeChild(t, ps[n].term);
      AssignmentExtend(t, ps, w, x, f, n);
      ghost var g := f;
      w, f := w + [x], f + [n];
      assert forall k :: k in g ==> k in f;
      assert f[|g|] == n;
    }
  }

  lemma {:induction false} SomeBarrenAt(t: Tables, ps: seq<Particle>) returns (i: nat)
    requires Acyclic(t.models) && RefsInRange(t.models, ps) && SomeBarren(t, ps)
    ensures i < |ps| && ParticleBarren(t, ps[i])
    decreases |ps|
  {
    if ParticleBarren(t, ps[|ps| - 1]) {
      i := |ps| - 1;
    } else {
      i := SomeBarrenAt(t, ps[..|ps| - 1]);
    }
  }

  lemma RequiredMatched(t: Tables, ps: seq<Particle>, w: Word, i: nat) returns (x: Input)
    requires w in AllLang(t, ps) && i < |ps| && ps[i].occurs.min > 0
    ensures TermMatches(t, ps[i].term, x)
  {
    var f :| Assignment(t, ps, w, f) && Covers(ps, f);
    var k :| 0 <= k < |f| && f[k] == i;
    x := w[k];
  }

  lemma AllBarrenIff(t: Tables, ps: seq<Particle>)
    requires Acyclic(t.models) && RefsInRange(t.models, ps)
    requires forall i :: 0 <= i < |ps| ==> ValidTerm(t, ps[i].term)
    ensures AllLang(t, ps) == EMPTY <==> SomeBarren(t, ps)
  {
    InhabitedIff(AllLang(t, ps));
    if SomeBarren(t, ps) {
      var i := SomeBarrenAt(t, ps);
      forall w
        ensures w !in AllLang(t, ps)
      {
        if w in AllLang(t, ps) {
          var x := RequiredMatched(t, ps, w, i);
        }
      }
    } else {
      var w, f := RequiredChildren(t, ps);
      assert w in AllLang(t, ps);
    }
  }

  /** Emptiness can be read off the table. */
  lemma BarrenIff(t: Tables, id: nat)
    requires ValidTables(t) && id < |t.models|
    ensures Barren(t, id) <==> ModelLang(t, id) == EMPTY
  {
    TermBarrenIff(t, ModelTerm(id));
  }

  // ----- content that swallows what stands beside it -----

  /** Whatever is put before a word of the language gives another one. */
  ghost predicate AbsorbsBefore(l: Lang) {
    forall u, w :: w in l ==> u + w in l
  }

  ghost predicate AbsorbsAfter(l: Lang) {
    forall u, w :: w in l ==> w + u in l
  }

  lemma EverythingBefore(any: Lang, l: Lang)
    requires forall w: Word :: w in any
    ensures Cat(any, l) == l <==> AbsorbsBefore(l)
  {
    if Cat(any, l) == l {
      forall u, w | w in l
        ensures u + w in l
      {
        CatIntro(any, l, u, w);
      }
    }
    if AbsorbsBefore(l) {
      forall w
        ensures w in Cat(any, l) <==> w in l
      {
        if w in Cat(any, l) {
          var u, v := CatElim(any, l, w);
        }
        if w in l {
          assert [] + w == w;
          CatIntro(any, l, [], w);
        }
      }
    }
  }

  lemma EverythingAfter(l: Lang, any: Lang)
    requires forall w: Word :: w in any
    ensures Cat(l, any) == l <==> AbsorbsAfter(l)
  {
    if Cat(l, any) == l {
      forall u, w | w in l
        ensures w + u in l
      {
        CatIntro(l, any, w, u);
      }
    }
    if AbsorbsAfter(l) {
      forall w
        ensures w in Cat(l, any) <==> w in l
      {
        if w in Cat(l, any) {
          var v, u := CatElim(l, any, w);
        }
        if w in l {
          assert w + [] == w;
          CatIntro(l, any, w, []);
        }
      }
    }
  }

  lemma AnyLang(t: Tables, id: nat)
    requires ValidTables(t) && id < |t.models| && t.models[id].kind.AnyModel?
    ensures forall w: Word :: w in ModelLang(t, id)
    ensures !Barren(t, id)
  {
    UnfoldModel(t, id);
    BarrenIff(t, id);
    assert [] in ModelLang(t, id);
  }

  // ----- when an extension is a concatenation -----

  /** The exact condition. The first two cases are the extension's own shortcuts for a side
      without particles; a group with particles keeps its place; an any model adds nothing,
      which is right only beside content that swallows everything. */
  ghost predicate Concatenates(t: Tables, base: nat, ext: nat)
    requires Acyclic(t.models) && base < |t.models| && ext < |t.models|
  {
    var b, e := t.models[base], t.models[ext];
    if HasNoParticles(b) then Hollow(b) ==> Barren(t, ext)
    else if HasNoParticles(e) then Hollow(e) ==> Barren(t, base)
    else if b.kind.AnyModel? then !e.kind.AnyModel? && AbsorbsBefore(ModelLang(t, ext))
    else e.kind.AnyModel? ==> AbsorbsAfter(ModelLang(t, base))
  }

  /** For all pairs of models: the extension is the base followed by the extension exactly
      under that condition. */
  lemma ExtensionIsConcatenation(t: Tables, base: nat, ext: nat)
    requires ValidTables(t) && base < |t.models| && ext < |t.models|
    ensures ExtensionLang(t, base, ext) == Cat(ModelLang(t, base), ModelLang(t, ext)) <==> Concatenates(t, base, ext)
  {
    var b, e := t.models[base], t.models[ext];
    if HasNoParticles(b) {
      NoParticlesFirst(t, base, ext);
    } else if HasNoParticles(e) {
      NoParticlesSecond(t, base, ext);
    } else if b.kind.AnyModel? || e.kind.AnyModel? {
      AnyBeside(t, base, ext);
    }
  }

  lemma NoParticlesFirst(t: Tables, base: nat, ext: nat)
    requires ValidTables(t) && base < |t.models| && ext < |t.models| && HasNoParticles(t.models[base])
    ensures ExtensionLang(t, base, ext) == Cat(ModelLang(t, base), ModelLang(t, ext)) <==>
            (Hollow(t.models[base]) ==> Barren(t, ext))
  {
    NoParticlesLang(t, base);
    BarrenIff(t, ext);
    EpsilonCat(ModelLang(t, ext));
    CatWithEmpty(ModelLang(t, ext));
  }

  lemma NoParticlesSecond(t: Tables, base: nat, ext: nat)
    requires ValidTables(t) && base < |t.models| && ext < |t.models|
    requires !HasNoParticles(t.models[base]) && HasNoParticles(t.models[ext])
    ensures ExtensionLang(t, base, ext) == Cat(ModelLang(t, base), ModelLang(t, ext)) <==>
            (Hollow(t.models[ext]) ==> Barren(t, base))
  {
    NoParticlesLang(t, ext);
    BarrenIff(t, base);
    CatEpsilon(ModelLang(t, base));
    CatWithEmpty(ModelLang(t, base));
  }

  lemma AnyBeside(t: Tables, base: nat, ext: nat)
    requires ValidTables(t) && base < |t.models| && ext < |t.models|
    requires !HasNoParticles(t.models[base]) && !HasNoParticles(t.models[ext])
    requires t.models[base].kind.AnyModel? || t.models[ext].kind.AnyModel?
    ensures ExtensionLang(t, base, ext) == Cat(ModelLang(t, base), ModelLang(t, ext)) <==> Concatenates(t, base, ext)
  {
    var b, e := ModelLang(t, base), ModelLang(t, ext);
    EpsilonCat(Contribution(t, ext));
    CatEpsilon(Contribution(t, base));
    if t.models[base].kind.AnyModel? {
      AnyLang(t, base);
      if t.models[ext].kind.AnyModel? {
        AnyLang(t, ext);
        var x := Input(QName("", ""), true, false);
        CatIntro(b, e, [x], []);
        assert [x] + [] == [x];
        assert [x] in Cat(b, e) && [x] !in EPSILON;
      } else {
        EverythingBefore(b, e);
      }
    } else {
      AnyLang(t, ext);
      EverythingAfter(b, e);
    }
  }

  /** Beside a hollow choice the extension keeps the other side, and is right exactly when
      that side accepts nothing either. */
  lemma HollowExtension(t: Tables, base: nat, ext: nat)
    requires ValidTables(t) && base < |t.models| && ext < |t.models| && Hollow(t.models[base])
    ensures ExtensionLang(t, base, ext) == ModelLang(t, ext)
    ensures ExtensionLang(t, base, ext) == Cat(ModelLang(t, base), ModelLang(t, ext)) <==> Barren(t, ext)
  {
    ExtensionIsConcatenation(t, base, ext);
  }

  // ----- beside an any model -----

  /** Content of bounded length swallows nothing. */
  lemma BoundedDoesNotAbsorb(t: Tables, id: nat)
    requires ValidTables(t) && id < |t.models| && !t.models[id].kind.AnyModel? && !Barren(t, id)
    requires !ModelCountRange(t, id).unbounded && ModelCountRange(t, id).max < MAX_UINT32
    ensures !AbsorbsBefore(ModelLang(t, id)) && !AbsorbsAfter(ModelLang(t, id))
  {
    BarrenIff(t, id);
    InhabitedIff(ModelLang(t, id));
    ModelCountBounds(t, id);
    var w :| w in ModelLang(t, id);
    var u: Word := seq(MAX_UINT32, _ => Input(QName("", ""), true, false));
    assert |u + w| > ModelCountRange(t, id).max && |w + u| > ModelCountRange(t, id).max;
    assert u + w !in ModelLang(t, id) && w + u !in ModelLang(t, id);
  }

  /** Content that cannot begin with some name swallows nothing before it. */
  lemma NameDoesNotAbsorb(t: Tables, id: nat, name: QName)
    requires ValidTables(t) && id < |t.models| && AnyFree(t, ModelTerm(id)) && !Barren(t, id)
    requires !StartMatches(t, ModelTerm(id), name)
    ensures !AbsorbsBefore(ModelLang(t, id))
  {
    BarrenIff(t, id);
    InhabitedIff(ModelLang(t, id));
    var w :| w in ModelLang(t, id);
    var x := Input(name, true, false);
    if [x] + w in ModelLang(t, id) {
      TermStarts(t, ModelTerm(id), [x] + w);
    }
  }

  /** The extension of an any model by bounded content, or by content that cannot begin
      with every name, is never the concatenation, unless that content accepts nothing. */
  lemma AnyExtensionFails(t: Tables, base: nat, ext: nat, name: QName)
    requires ValidTables(t) && base < |t.models| && ext < |t.models| && t.models[base].kind.AnyModel?
    requires !HasNoParticles(t.models[ext]) && !t.models[ext].kind.AnyModel?
    requires || (!ModelCountRange(t, ext).unbounded && ModelCountRange(t, ext).max < MAX_UINT32)
             || (AnyFree(t, ModelTerm(ext)) && !StartMatches(t, ModelTerm(ext), name))
    ensures ExtensionLang(t, base, ext) == Cat(ModelLang(t, base), ModelLang(t, ext)) <==> Barren(t, ext)
  {
    ExtensionIsConcatenation(t, base, ext);
    if Barren(t, ext) {
      BarrenIff(t, ext);
    } else if !ModelCountRange(t, ext).unbounded && ModelCountRange(t, ext).max < MAX_UINT32 {
      BoundedDoesNotAbsorb(t, ext);
    } else {
      NameDoesNotAbsorb(t, ext, name);
    }
  }

  lemma CatAbsorbs(a: Lang, b: Lang)
    requires AbsorbsBefore(a)
    ensures AbsorbsBefore(Cat(a, b))
  {
    forall u, w | w in Cat(a, b)
      ensures u + w in Cat(a, b)
    {
      var v, v' := CatElim(a, b, w);
      CatIntro(a, b, u + v, v');
      assert (u + v) + v' == u + w;
    }
  }

  lemma OpenParticleAbsorbs(t: Tables, p: Particle, u: Word, a: Word)
    requires Acyclic(t.models) && p.term.WildcardTerm? && p.term.wildcard < |t.wildcards|
    requires t.wildcards[p.term.wildcard].allowed.AnyNamespace? && p.occurs.unbounded
    requires a in ParticleLang(t, p)
    ensures u + a in ParticleLang(t, p)
  {
    var l := LeafLang(t, p.term);
    var k: nat :| p.occurs.Contains(k) && a in Power(l, k);
    LeafPower(t, p.term, k, a);
    LeafPower(t, p.term, |u| + k, u + a);
    RepIntro(l, p.occurs, |u| + k, u + a);
  }

  /** A sequence that opens with any number of arbitrary children does swallow what is put
      before it. */
  lemma OpenFrontAbsorbs(t: Tables, ps: seq<Particle>)
    requires Acyclic(t.models) && RefsInRange(t.models, ps) && ps != []
    requires ps[0].term.WildcardTerm? && ps[0].term.wildcard < |t.wildcards|
    requires t.wildcards[ps[0].term.wildcard].allowed.AnyNamespace? && ps[0].occurs.unbounded
    ensures AbsorbsBefore(SequenceLang(t, ps))
  {
    SequenceFront(t, ps);
    forall u, a | a in ParticleLang(t, ps[0])
      ensures u + a in ParticleLang(t, ps[0])
    {
      OpenParticleAbsorbs(t, ps[0], u, a);
    }
    CatAbsorbs(ParticleLang(t, ps[0]), SequenceLang(t, ps[1..]));
  }

  // ----- examples -----

  /** One element `a`, a model, and after it a sequence of that element. */
  function OneElementBeside(base: ContentModel): Tables {
    Tables([QName("", "a")], [], [], map[],
           [base, ContentModel(Sequence, [Particle(ElementTerm(0), ONE)], ONE, [], false)])
  }

  lemma OneElementTables(base: ContentModel)
    requires ValidModel(OneElementBeside(base), base) && base.particles == []
    ensures ValidTables(OneElementBeside(base)) && !Barren(OneElementBeside(base), 1)
  {
    var t := OneElementBeside(base);
    assert Ranked(t.models, [0, 0]);
    var ps := t.models[1].particles;
    assert ps[..0] == [] && !SomeBarren(t, ps[..0]) && !ParticleBarren(t, ps[0]);
    assert !GroupBarren(t, t.models[1]);
  }

  /** A choice without alternatives before one element: the extension accepts the element,
      the concatenation accepts nothing. */
  lemma HollowExample()
    ensures var t := OneElementBeside(ContentModel(Choice, [], ONE, [], false));
            ValidTables(t) && ExtensionLang(t, 0, 1) != Cat(ModelLang(t, 0), ModelLang(t, 1))
  {
    var base := ContentModel(Choice, [], ONE, [], false);
    OneElementTables(base);
    HollowExtension(OneElementBeside(base), 0, 1);
  }

  /** The built-in any model before one element: the extension accepts only the element. */
  lemma AnyExtensionExample()
    ensures var t := OneElementBeside(ContentModel(AnyModel, [], Occurrence(0, 0, false), [], true));
            ValidTables(t) && ExtensionLang(t, 0, 1) != Cat(ModelLang(t, 0), ModelLang(t, 1))
  {
    var base := ContentModel(AnyModel, [], Occurrence(0, 0, false), [], true);
    var t := OneElementBeside(base);
    OneElementTables(base);
    assert AnyFree(t, ModelTerm(1)) by {
      AllAnyFreeIff(t, t.models[1].particles);
    }
    assert !StartMatches(t, ModelTerm(1), QName("", "b")) by {
      var ps := t.models[1].particles;
      assert "b"[0] != "a"[0];
      assert !StartMatches(t, ElementTerm(0), QName("", "b"));
      assert ps[1..] == [] && !GroupStartMatches(t, Sequence, ps[1..], QName("", "b"));
      assert !GroupStartMatches(t, Sequence, ps, QName("", "b"));
    }
    AnyExtensionFails(t, 0, 1, QName("", "b"));
  }
}
