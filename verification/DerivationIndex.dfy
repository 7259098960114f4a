/** The published index: interval numberings of both type forests, step counts along
    complex chains, and the simple type each complex chain rests on. */
module DerivationIndexes {
  import opened Schema
  import opened Ancestry
  import opened TypeGraphs
  import opened DerivationForests

  datatype IndexTables = IndexTables(
    simple: Numbering, complex: Numbering, extensions: seq<nat>, restricts: seq<nat>,
    simpleBase: seq<Option<nat>>, simpleMask: seq<Mask>, members: seq<seq<nat>>, anyType: nat)

  function StepCount(steps: seq<DerivationKind>, kind: DerivationKind): nat {
    if steps == [] then 0 else (if steps[0] == kind then 1 else 0) + StepCount(steps[1..], kind)
  }

  /** What the index stores about one complex type. */
  datatype ComplexFacts = ComplexFacts(extensions: nat, restricts: nat, simpleBase: Option<nat>, simpleMask: Mask)

  ghost function FactsOf(t: Types, i: nat): ComplexFacts
    requires Forest(ComplexParents(t)) && i < |t.complex|
  {
    var steps := AllSteps(t, i);
    ComplexFacts(StepCount(steps, Extension), StepCount(steps, Restriction), SimpleTop(t, i), MaskOf(steps))
  }

  /** The index describes the type graph. */
  ghost predicate Indexes(x: IndexTables, t: Types) {
    match x case IndexTables(simple, complex, extensions, restricts, simpleBase, simpleMask, members, anyType) =>
      && Publishable(t) && anyType == t.anyType
      && Numbers(SimpleParents(t), simple) && Numbers(ComplexParents(t), complex)
      && |extensions| == |restricts| == |simpleBase| == |simpleMask| == |t.complex|
      && (forall i: nat :: i < |t.complex| ==> ComplexFacts(extensions[i], restricts[i], simpleBase[i], simpleMask[i]) == FactsOf(t, i))
      && |members| == |t.simple| && (forall i :: 0 <= i < |members| ==> members[i] == t.simple[i].members)
  }

  // ----- building -----

  /** One chain step added to what is known of the parent. */
  function Extended(f: ComplexFacts, kind: DerivationKind): ComplexFacts {
    ComplexFacts(
      f.extensions + if kind.Extension? then 1 else 0,
      f.restricts + if kind.Restriction? then 1 else 0,
      f.simpleBase, f.simpleMask + KindMask(kind))
  }

  function RootFacts(base: TypeId): ComplexFacts {
    ComplexFacts(0, 0, if base.SimpleId? then Some(base.simple) else None, {})
  }

  lemma FactsStep(t: Types, i: nat)
    requires Forest(ComplexParents(t)) && i < |t.complex|
    ensures t.complex[i].base.ComplexId? ==> t.complex[i].base.complex < |t.complex|
    ensures FactsOf(t, i) == Extended(
              if t.complex[i].base.ComplexId? then FactsOf(t, t.complex[i].base.complex) else RootFacts(t.complex[i].base),
              t.complex[i].derivation)
  {
    if t.complex[i].base.ComplexId? {
      ParentRanked(t, i);
    }
    var steps := AllSteps(t, i);
    var rest := if t.complex[i].base.ComplexId? then AllSteps(t, t.complex[i].base.complex) else [];
    assert steps[0] == t.complex[i].derivation && steps[1..] == rest;
    assert MaskOf(steps) == MaskOf(steps[1..]) + KindMask(steps[0]) by {
      assert steps == [steps[0]] + steps[1..];
    }
    assert MaskOf([]) == {};
    var above := if t.complex[i].base.ComplexId? then FactsOf(t, t.complex[i].base.complex) else RootFacts(t.complex[i].base);
    assert above.extensions == StepCount(rest, Extension) && above.restricts == StepCount(rest, Restriction);
    assert above.simpleMask == MaskOf(rest);
    assert above.simpleBase == SimpleTop(t, i);
  }

  ghost predicate FactsRight(t: Types, order: seq<nat>, facts: seq<ComplexFacts>, n: nat)
    requires Forest(ComplexParents(t)) && n <= |order|
  {
    && |facts| == |t.complex|
    && forall k :: 0 <= k < n ==> order[k] < |t.complex| && facts[order[k]] == FactsOf(t, order[k])
  }

  /** Fills in the facts parents first. */
  method ChainFacts(t: Types, numbering: Numbering) returns (facts: seq<ComplexFacts>)
    requires Forest(ComplexParents(t)) && Numbers(ComplexParents(t), numbering)
    ensures |facts| == |t.complex| && forall i :: 0 <= i < |facts| ==> facts[i] == FactsOf(t, i)
  {
    var order := numbering.order;
    var table := new ComplexFacts[|t.complex|](_ => RootFacts(NoType));
    for k := 0 to |order|
      invariant FactsRight(t, order, table[..], k)
    {
      var i := order[k];
      var ct := t.complex[i];
      FactsStep(t, i);
      var above := RootFacts(ct.base);
      if ct.base.ComplexId? {
        ghost var p := ct.base.complex;
        assert ComplexParents(t)[i] == Some(p);
        assert numbering.ins[p] < k && order[numbering.ins[p]] == p;
        above := table[ct.base.complex];
      }
      table[i] := Extended(above, ct.derivation);
    }
    facts := table[..];
    forall i | 0 <= i < |facts|
      ensures facts[i] == FactsOf(t, i)
    {
      assert order[numbering.ins[i]] == i;
    }
  }

  /** Bases in range, and no type its own base. */
  predicate SimpleBasesValid(t: Types) {
    forall i :: 0 <= i < |t.simple| && t.simple[i].base.Some? ==> t.simple[i].base.value < |t.simple| && t.simple[i].base.value != i
  }

  predicate ComplexBasesValid(t: Types) {
    forall i :: 0 <= i < |t.complex| ==>
      match t.complex[i].base
      case NoType => true
      case SimpleId(s) => s < |t.simple|
      case ComplexId(p) => p < |t.complex| && p != i
  }

  lemma BadBases(t: Types)
    ensures Forest(SimpleParents(t)) ==> SimpleBasesValid(t)
    ensures Forest(ComplexParents(t)) && (forall i :: 0 <= i < |t.complex| && t.complex[i].base.SimpleId? ==> t.complex[i].base.simple < |t.simple|) ==>
              ComplexBasesValid(t)
  {
    if Forest(SimpleParents(t)) {
      var rank :| RankedParents(SimpleParents(t), rank);
      assert forall i :: 0 <= i < |t.simple| && t.simple[i].base.Some? ==> ParentBelow(SimpleParents(t), rank, i);
    }
    if Forest(ComplexParents(t)) {
      var rank :| RankedParents(ComplexParents(t), rank);
      assert forall i :: 0 <= i < |t.complex| && t.complex[i].base.ComplexId? ==> ParentBelow(ComplexParents(t), rank, i);
    }
  }

  /** What the type tables promise besides their bases. */
  predicate MembersValid(t: Types) {
    && (forall i, j :: 0 <= i < |t.simple| && 0 <= j < |t.simple[i].members| ==> t.simple[i].members[j] < |t.simple|)
    && (forall i :: 0 <= i < |t.simple| && !t.simple[i].variety.Union? ==> t.simple[i].members == [])
  }

  /** Builds the index of exactly the graphs that can be published. */
  method BuildTypeDerivationIndex(t: Types) returns (r: Option<IndexTables>)
    requires MembersValid(t)
    ensures r.Some? <==> Publishable(t)
    ensures r.Some? ==> Indexes(r.value, t)
  {
    BadBases(t);
    if t.anyType >= |t.complex| || !SimpleBasesValid(t) {
      return None;
    }
    var simple := BuildDerivationForest(SimpleParents(t));
    if simple.None? || !ComplexBasesValid(t) {
      return None;
    }
    var complex := BuildDerivationForest(ComplexParents(t));
    if complex.None? {
      return None;
    }
    var facts := ChainFacts(t, complex.value);
    var n := |t.complex|;
    return Some(IndexTables(
      simple.value, complex.value,
      seq(n, i requires 0 <= i < n => facts[i].extensions), seq(n, i requires 0 <= i < n => facts[i].restricts),
      seq(n, i requires 0 <= i < n => facts[i].simpleBase), seq(n, i requires 0 <= i < n => facts[i].simpleMask),
      seq(|t.simple|, i requires 0 <= i < |t.simple| => t.simple[i].members), t.anyType));
  }

  // ----- complex queries -----

  function CountedMask(x: IndexTables, d: nat, b: nat): Mask
    requires d < |x.extensions| == |x.restricts| && b < |x.extensions|
  {
    (if x.extensions[d] > x.extensions[b] then {Extension} else {})
    + (if x.restricts[d] > x.restricts[b] then {Restriction} else {})
  }

  /** Interval test and step counts. */
  function ComplexQuery(x: IndexTables, d: nat, b: nat): Option<Mask>
    requires |x.complex.ins| == |x.complex.outs| == |x.extensions| == |x.restricts|
  {
    if d >= |x.complex.ins| || b >= |x.complex.ins| || !InInterval(x.complex, b, d) then None
    else Some(CountedMask(x, d, b))
  }

  lemma {:induction false} StepsSplit(t: Types, d: nat, b: nat, k: nat)
    requires Forest(ComplexParents(t)) && d < |t.complex| && b < |t.complex| && IsUp(ComplexParents(t), b, d, k)
    ensures AllSteps(t, d) == StepsTo(t, d, b) + AllSteps(t, b)
    decreases k
  {
    assert Up(ComplexParents(t), d, 0) == Some(d);
    if d != b {
      assert k > 0;
      if t.complex[d].base.ComplexId? {
        ParentRanked(t, d);
        UpFromParent(ComplexParents(t), d, k - 1);
        StepsSplit(t, t.complex[d].base.complex, b, k - 1);
      } else {
        UpFromRoot(ComplexParents(t), d, k - 1);
      }
    } else {
      assert StepsTo(t, d, b) == [];
    }
  }

  lemma {:induction false} CountAppend(a: seq<DerivationKind>, b: seq<DerivationKind>, kind: DerivationKind)
    ensures StepCount(a + b, kind) == StepCount(a, kind) + StepCount(b, kind)
  {
    if a == [] {
      assert a + b == b;
    } else {
      assert (a + b)[1..] == a[1..] + b;
      CountAppend(a[1..], b, kind);
    }
  }

  lemma {:induction false} CountPositive(a: seq<DerivationKind>, kind: DerivationKind)
    ensures StepCount(a, kind) > 0 <==> kind in a
  {
    if a != [] {
      CountPositive(a[1..], kind);
      assert a == [a[0]] + a[1..];
    }
  }

  /** The counts differ exactly where a step of that kind lies between. */
  lemma CountsTellSteps(x: IndexTables, t: Types, d: nat, b: nat)
    requires Indexes(x, t) && d < |t.complex| && b < |t.complex| && Ancestor(ComplexParents(t), b, d)
    ensures CountedMask(x, d, b) == MaskOf(StepsTo(t, d, b))
  {
    var k: nat :| IsUp(ComplexParents(t), b, d, k);
    StepsSplit(t, d, b, k);
    var steps := StepsTo(t, d, b);
    assert ComplexFacts(x.extensions[d], x.restricts[d], x.simpleBase[d], x.simpleMask[d]) == FactsOf(t, d);
    assert ComplexFacts(x.extensions[b], x.restricts[b], x.simpleBase[b], x.simpleMask[b]) == FactsOf(t, b);
    forall kind | kind == Extension || kind == Restriction
      ensures StepCount(AllSteps(t, d), kind) > StepCount(AllSteps(t, b), kind) <==> kind in steps
    {
      CountAppend(steps, AllSteps(t, b), kind);
      CountPositive(steps, kind);
    }
  }

  lemma AncestorInRange(parents: Parents, b: nat, d: nat)
    requires Forest(parents) && d < |parents| && Ancestor(parents, b, d)
    ensures b < |parents|
  {
    var rank :| RankedParents(parents, rank);
    var k: nat :| IsUp(parents, b, d, k);
    RankFalls(parents, rank, d, k);
  }

  lemma ComplexQueryRight(x: IndexTables, t: Types, d: nat, b: nat)
    requires Indexes(x, t) && d < |t.complex|
    ensures ComplexQuery(x, d, b) == if Ancestor(ComplexParents(t), b, d) then Some(MaskOf(StepsTo(t, d, b))) else None
  {
    if Ancestor(ComplexParents(t), b, d) {
      AncestorInRange(ComplexParents(t), b, d);
      CountsTellSteps(x, t, d, b);
    }
    if b < |t.complex| {
      assert InInterval(x.complex, b, d) == Ancestor(ComplexParents(t), b, d);
    }
  }

  function AnyTypeQuery(x: IndexTables, d: nat): Option<Mask>
    requires |x.complex.ins| == |x.complex.outs| == |x.extensions| == |x.restricts| == |x.simpleBase| == |x.simpleMask|
  {
    if d >= |x.complex.ins| || x.anyType >= |x.complex.ins| then None
    else if d == x.anyType then Some({})
    else match ComplexQuery(x, d, x.anyType)
         case Some(mask) => Some(mask)
         case None => if x.simpleBase[d].Some? then Some(x.simpleMask[d] + {Restriction}) else None
  }

  /** The index answers as the type graph does, for every complex type and any type. */
  lemma ComplexQueriesRight(x: IndexTables, t: Types, d: nat, b: nat)
    requires Indexes(x, t) && d < |t.complex|
    ensures b != t.anyType ==> ComplexQuery(x, d, b) == ComplexToComplex(t, d, b)
    ensures AnyTypeQuery(x, d) == ComplexToComplex(t, d, t.anyType)
  {
    ComplexQueryRight(x, t, d, b);
    ComplexQueryRight(x, t, d, t.anyType);
    AncestorSelf(ComplexParents(t), d);
    assert StepsTo(t, d, d) == [] && MaskOf([]) == {};
    assert ComplexFacts(x.extensions[d], x.restricts[d], x.simpleBase[d], x.simpleMask[d]) == FactsOf(t, d);
  }
}
