/** xs:all groups: their compiled terms, the machine that ticks each term off once,
    and the bit words that hold the ticks. */
module AllGroups {
  import opened Schema
  import opened Languages
  import opened ContentLanguage
  import opened Overlap
  import opened PositionBuilder

  datatype AllTerm = AllTerm(term: Term, required: bool)

  function AllTermOf(p: Particle): AllTerm {
    AllTerm(p.term, p.occurs.min > 0)
  }

  function AllTermsOf(ps: seq<Particle>): (r: seq<AllTerm>)
    ensures |r| == |ps|
    ensures forall i :: 0 <= i < |ps| ==> r[i] == AllTermOf(ps[i])
  {
    seq(|ps|, i requires 0 <= i < |ps| => AllTermOf(ps[i]))
  }

  // ----- the machine -----

  datatype AllMove = AllInvalid | AllNoMatch | AllMatched(i: nat, m: ContentMatch)

  /** The first term from i on that is still free and matches. */
  function FirstFree(t: Tables, terms: seq<AllTerm>, seen: set<nat>, x: Input, i: nat): (r: AllMove)
    requires i <= |terms|
    ensures r.AllMatched? ==> i <= r.i < |terms| && r.i !in seen && TermMatches(t, terms[r.i].term, x)
                              && Reports(t, terms[r.i].term, x, r.m)
    decreases |terms| - i
  {
    if i == |terms| then AllNoMatch
    else if i in seen then FirstFree(t, terms, seen, x, i + 1)
    else match MatchDirect(t, terms[i].term, x)
      case Invalid => AllInvalid
      case Unmatched => FirstFree(t, terms, seen, x, i + 1)
      case Matched(m) => AllMatched(i, m)
  }

  /** Which terms are ticked after w, if every child found a free term. */
  function AllRun(t: Tables, terms: seq<AllTerm>, w: Word): Option<set<nat>>
    decreases |w|
  {
    if w == [] then Some({})
    else
      match AllRun(t, terms, w[..|w| - 1])
      case None => None
      case Some(seen) =>
        match FirstFree(t, terms, seen, w[|w| - 1], 0)
        case AllMatched(i, _) => Some(seen + {i})
        case _ => None
  }

  predicate AllComplete(terms: seq<AllTerm>, empty: bool, seen: set<nat>) {
    if seen == {} then empty
    else forall i :: 0 <= i < |terms| && terms[i].required ==> i in seen
  }

  predicate AllAccepts(t: Tables, terms: seq<AllTerm>, empty: bool, w: Word) {
    var seen := AllRun(t, terms, w);
    seen.Some? && AllComplete(terms, empty, seen.value)
  }

  // ----- against the language of the group -----

  ghost predicate ParticlesApart(t: Tables, ps: seq<Particle>)
    requires Acyclic(t.models)
  {
    forall i, j :: 0 <= i < j < |ps| ==> !TermsOverlap(t, ps[i].term, ps[j].term)
  }

  ghost predicate DirectParticles(t: Tables, ps: seq<Particle>) {
    forall i :: 0 <= i < |ps| ==> ValidTerm(t, ps[i].term)
  }

  lemma OnlyOneTerm(t: Tables, ps: seq<Particle>, x: Input, i: nat, j: nat)
    requires Acyclic(t.models) && WellFormedSubstitutions(t) && ParticlesApart(t, ps)
    requires i < |ps| && j < |ps| && TermMatches(t, ps[i].term, x) && TermMatches(t, ps[j].term, x)
    ensures i == j
  {
    if i < j {
      BothMatchOverlap(t, ps[i].term, ps[j].term, x);
    }
    if j < i {
      BothMatchOverlap(t, ps[j].term, ps[i].term, x);
    }
  }

  lemma {:induction false} FreeTermFound(t: Tables, ps: seq<Particle>, seen: set<nat>, x: Input, k: nat, i: nat)
    requires Acyclic(t.models) && WellFormedSubstitutions(t) && ParticlesApart(t, ps) && DirectParticles(t, ps)
    requires i <= k < |ps| && k !in seen && TermMatches(t, ps[k].term, x)
    ensures var r := FirstFree(t, AllTermsOf(ps), seen, x, i); r.AllMatched? && r.i == k
    decreases k - i
  {
    if i < k {
      if TermMatches(t, ps[i].term, x) {
        OnlyOneTerm(t, ps, x, i, k);
      }
      FreeTermFound(t, ps, seen, x, k, i + 1);
    }
  }

  lemma AssignmentPrefix(t: Tables, ps: seq<Particle>, w: Word, f: seq<nat>)
    requires w != [] && Assignment(t, ps, w, f)
    ensures Assignment(t, ps, w[..|w| - 1], f[..|w| - 1])
    ensures f[|w| - 1] !in f[..|w| - 1] && TermMatches(t, ps[f[|w| - 1]].term, w[|w| - 1])
    ensures Elements(f) == Elements(f[..|w| - 1]) + {f[|w| - 1]}
  {
    var n := |w| - 1;
    assert f == f[..n] + [f[n]];
  }

  /** The machine follows every assignment of children to terms. */
  lemma {:induction false} AssignmentRuns(t: Tables, ps: seq<Particle>, w: Word, f: seq<nat>)
    requires Acyclic(t.models) && WellFormedSubstitutions(t) && ParticlesApart(t, ps) && DirectParticles(t, ps)
    requires Assignment(t, ps, w, f)
    ensures AllRun(t, AllTermsOf(ps), w) == Some(Elements(f))
    decreases |w|
  {
    if w != [] {
      var n := |w| - 1;
      AssignmentPrefix(t, ps, w, f);
      AssignmentRuns(t, ps, w[..n], f[..n]);
      FreeTermFound(t, ps, Elements(f[..n]), w[n], f[n], 0);
    } else {
      assert Elements(f) == {};
    }
  }

  lemma AssignmentExtend(t: Tables, ps: seq<Particle>, u: Word, x: Input, g: seq<nat>, k: nat)
    requires Assignment(t, ps, u, g) && k !in g && k < |ps| && TermMatches(t, ps[k].term, x)
    ensures Assignment(t, ps, u + [x], g + [k])
    ensures Elements(g + [k]) == Elements(g) + {k}
  {
  }

  /** Every run of the machine is an assignment. */
  lemma {:induction false} RunAssigns(t: Tables, ps: seq<Particle>, w: Word) returns (f: seq<nat>)
    requires AllRun(t, AllTermsOf(ps), w).Some?
    ensures Assignment(t, ps, w, f) && AllRun(t, AllTermsOf(ps), w) == Some(Elements(f))
    decreases |w|
  {
    if w == [] {
      f := [];
      assert Elements(f) == {};
    } else {
      var n := |w| - 1;
      var g := RunAssigns(t, ps, w[..n]);
      var k := FirstFree(t, AllTermsOf(ps), Elements(g), w[n], 0).i;
      f := g + [k];
      assert k !in Elements(g) && w == w[..n] + [w[n]];
      AssignmentExtend(t, ps, w[..n], w[n], g, k);
    }
  }

  ghost function AllGroupLang(t: Tables, ps: seq<Particle>, occurs: Occurrence): Lang {
    Rep(AllLang(t, ps), occurs)
  }

  predicate NoneRequired(ps: seq<Particle>) {
    forall i :: 0 <= i < |ps| ==> ps[i].occurs.min == 0
  }

  lemma AtMostOnce(l: Lang, o: Occurrence, w: Word)
    requires o.Valid() && !o.unbounded && o.max == 1
    ensures w in Rep(l, o) <==> w in l || (o.min == 0 && w == [])
  {
    PowerOne(l);
    assert w in Power(l, 0) <==> w == [];
    if w in l {
      RepIntro(l, o, 1, w);
    }
    if o.min == 0 && w == [] {
      RepIntro(l, o, 0, w);
    }
  }

  /** Each child ticks a free term of its own and nothing required is missing, or
      nothing is present and the group may be absent. */
  lemma AllAcceptsIff(t: Tables, ps: seq<Particle>, occurs: Occurrence, w: Word)
    requires Acyclic(t.models) && WellFormedSubstitutions(t) && ParticlesApart(t, ps) && DirectParticles(t, ps)
    requires occurs.Valid() && !occurs.unbounded && occurs.max == 1
    ensures AllAccepts(t, AllTermsOf(ps), occurs.min == 0 || NoneRequired(ps), w) <==> w in AllGroupLang(t, ps, occurs)
  {
    AtMostOnce(AllLang(t, ps), occurs, w);
    var terms, empty := AllTermsOf(ps), occurs.min == 0 || NoneRequired(ps);
    if AllAccepts(t, terms, empty, w) {
      var f := RunAssigns(t, ps, w);
      CompleteCovers(ps, empty, f);
    }
    if w in AllLang(t, ps) {
      var f :| Assignment(t, ps, w, f) && Covers(ps, f);
      AssignmentRuns(t, ps, w, f);
      CompleteCovers(ps, empty, f);
    }
  }

  lemma CompleteCovers(ps: seq<Particle>, empty: bool, f: seq<nat>)
    requires NoneRequired(ps) ==> empty
    ensures AllComplete(AllTermsOf(ps), empty, Elements(f)) <==> (f == [] && empty) || (f != [] && Covers(ps, f))
    ensures f == [] ==> (Covers(ps, f) <==> NoneRequired(ps))
  {
    assert f != [] ==> f[0] in Elements(f);
    assert forall k :: k in f <==> k in Elements(f);
    if f != [] && AllComplete(AllTermsOf(ps), empty, Elements(f)) {
      forall k | 0 <= k < |ps| && ps[k].occurs.min > 0
        ensures k in f
      {
        assert AllTermsOf(ps)[k].required;
      }
    }
  }

  // ----- order does not matter -----

  lemma RemoveChild(t: Tables, ps: seq<Particle>, w: Word, f: seq<nat>, i: nat)
    requires i < |w| && Assignment(t, ps, w, f)
    ensures Assignment(t, ps, w[..i] + w[i + 1..], f[..i] + f[i + 1..])
    ensures f[i] !in f[..i] + f[i + 1..]
    ensures Elements(f) == Elements(f[..i] + f[i + 1..]) + {f[i]}
  {
    assert f == f[..i] + [f[i]] + f[i + 1..];
  }

  lemma WithoutChild(w: Word, i: nat)
    requires i < |w|
    ensures multiset(w[..i] + w[i + 1..]) == multiset(w) - multiset{w[i]}
  {
    assert w == w[..i] + [w[i]] + w[i + 1..];
  }

  lemma FindChild(w: Word, v: Word) returns (i: nat)
    requires multiset(w) == multiset(v) && v != []
    ensures i < |w| && w[i] == v[|v| - 1]
    ensures multiset(w[..i] + w[i + 1..]) == multiset(v[..|v| - 1])
  {
    var n := |v| - 1;
    WithoutChild(v, n);
    assert v[..n] + v[n + 1..] == v[..n];
    assert v[n] in multiset(w);
    i :| 0 <= i < |w| && w[i] == v[n];
    WithoutChild(w, i);
  }

  /** A reordering of the children has an assignment to the same terms. */
  lemma {:induction false} Reassign(t: Tables, ps: seq<Particle>, w: Word, v: Word, f: seq<nat>) returns (g: seq<nat>)
    requires Assignment(t, ps, w, f) && multiset(w) == multiset(v)
    ensures Assignment(t, ps, v, g) && Elements(g) == Elements(f)
    decreases |v|
  {
    if v == [] {
      assert |w| == |multiset(w)| == |multiset(v)| == 0;
      g := f;
    } else {
      var n := |v| - 1;
      var i := FindChild(w, v);
      RemoveChild(t, ps, w, f, i);
      var h := Reassign(t, ps, w[..i] + w[i + 1..], v[..n], f[..i] + f[i + 1..]);
      g := h + [f[i]];
      assert f[i] !in Elements(h) && v == v[..n] + [v[n]];
      AssignmentExtend(t, ps, v[..n], v[n], h, f[i]);
    }
  }

  /** Reordering the children never changes the outcome. */
  lemma AllOrderFree(t: Tables, ps: seq<Particle>, empty: bool, w: Word, v: Word)
    requires Acyclic(t.models) && WellFormedSubstitutions(t) && ParticlesApart(t, ps) && DirectParticles(t, ps)
    requires multiset(w) == multiset(v)
    ensures AllRun(t, AllTermsOf(ps), w) == AllRun(t, AllTermsOf(ps), v)
    ensures AllAccepts(t, AllTermsOf(ps), empty, w) == AllAccepts(t, AllTermsOf(ps), empty, v)
  {
    if AllRun(t, AllTermsOf(ps), w).Some? {
      var f := RunAssigns(t, ps, w);
      var g := Reassign(t, ps, w, v, f);
      AssignmentRuns(t, ps, v, g);
    }
    if AllRun(t, AllTermsOf(ps), v).Some? {
      var f := RunAssigns(t, ps, v);
      var g := Reassign(t, ps, v, w, f);
      AssignmentRuns(t, ps, w, g);
    }
  }

  // ----- compiling -----

  method CheckPairwiseUpa(t: Tables, ps: seq<Particle>) returns (ok: bool)
    requires Acyclic(t.models)
    ensures ok <==> ParticlesApart(t, ps)
  {
    var terms := seq(|ps|, i requires 0 <= i < |ps| => ps[i].term);
    var needed := NeedUpaCheck(t, terms);
    if !needed {
      forall i, j | 0 <= i < j < |ps|
        ensures !TermsOverlap(t, ps[i].term, ps[j].term)
      {
        assert !TermsOverlap(t, terms[i], terms[j]);
      }
      return true;
    }
    for i := 0 to |ps|
      invariant forall a, b :: 0 <= a < i && a < b < |ps| ==> !TermsOverlap(t, ps[a].term, ps[b].term)
    {
      for j := i + 1 to |ps|
        invariant forall b :: i < b < j ==> !TermsOverlap(t, ps[i].term, ps[b].term)
      {
        if TermsOverlap(t, ps[i].term, ps[j].term) {
          return false;
        }
      }
    }
    return true;
  }

  datatype AllCompilation = AllCompilation(terms: seq<AllTerm>, bitLen: nat, empty: bool)

  /** Ambiguous groups and nested groups are refused; the rest compile term by term. */
  method CompileAll(t: Tables, m: ContentModel) returns (r: Outcome<AllCompilation>)
    requires Acyclic(t.models)
    ensures r.Ok? ==>
              && ParticlesApart(t, m.particles) && (forall i :: 0 <= i < |m.particles| ==> !m.particles[i].term.ModelTerm?)
              && r.value.terms == AllTermsOf(m.particles)
              && r.value.empty == (m.occurs.min == 0 || NoneRequired(m.particles))
              && 64 * r.value.bitLen >= |m.particles|
    ensures r.Err? && r.error == UpaViolation <==> !ParticlesApart(t, m.particles)
    ensures r.Ok? ==> |m.particles| <= 64 * MAX_UINT32
    ensures r.Err? && r.error != UpaViolation ==>
              || (r.error == UnsupportedModel && exists i :: 0 <= i < |m.particles| && m.particles[i].term.ModelTerm?)
              || (r.error == StateLimit && |m.particles| > 64 * MAX_UINT32)
  {
    var ok := CheckPairwiseUpa(t, m.particles);
    if !ok {
      return Err(UpaViolation);
    }
    var terms := [];
    var required := false;
    for i := 0 to |m.particles|
      invariant terms == AllTermsOf(m.particles)[..i]
      invariant forall j :: 0 <= j < i ==> !m.particles[j].term.ModelTerm?
      invariant required <==> exists j :: 0 <= j < i && m.particles[j].occurs.min > 0
    {
      var p := m.particles[i];
      if p.term.ModelTerm? {
        return Err(UnsupportedModel);
      }
      if p.occurs.min > 0 {
        required := true;
      }
      terms := terms + [AllTerm(p.term, p.occurs.min > 0)];
    }
    var bitLen := (|terms| + 63) / 64;
    if bitLen > MAX_UINT32 {
      return Err(StateLimit);
    }
    return Ok(AllCompilation(terms, bitLen, m.occurs.min == 0 || !required));
  }
}
