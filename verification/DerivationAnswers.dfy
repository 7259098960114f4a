/** The walking answers are the derivations of the type graph, on every published graph. */
module DerivationAnswers {
  import opened Schema
  import opened Ancestry
  import opened TypeGraphs
  import opened SlowDerivation
  import opened PairSearches

  // ----- simple types -----

  /** Every pair reached has moved up from d and down into b. */
  lemma {:induction false} PairsMove(t: Types, d: nat, b: nat, path: seq<Pair>)
    requires PairPath(t, path) && path[0] == (d, b)
    ensures Ancestor(SimpleParents(t), path[|path| - 1].0, d) && Member(t, b, path[|path| - 1].1)
    decreases |path|
  {
    AncestorSelf(SimpleParents(t), d);
    MemberSelf(t, b);
    if |path| > 1 {
      var n := |path| - 1;
      PairsMove(t, d, b, path[..n]);
      var p, q := path[n - 1], path[n];
      assert PairEdge(t, p, q);
      var i: nat :| Next(t, p, i) == Some(q);
      if i < |UnionMembers(t, p.1)| {
        MemberExtend(t, b, p.1, q.1);
      } else {
        AncestorStep(SimpleParents(t), q.0, p.0);
        AncestorSelf(SimpleParents(t), q.0);
        AncestorTransitive(SimpleParents(t), q.0, p.0, d);
      }
    }
  }

  lemma {:induction false} MoveBase(t: Types, start: Pair, d: nat, path: seq<nat>)
    requires Publishable(t) && d < |t.simple| && MemberPath(t, path) && path[0] < |t.simple|
    requires PairReachable(t, start, (d, path[0]))
    ensures path[|path| - 1] < |t.simple| && PairReachable(t, start, (d, path[|path| - 1]))
    decreases |path|
  {
    if |path| > 1 {
      var n := |path| - 1;
      MoveBase(t, start, d, path[..n]);
      assert HasMember(t, path[n - 1], path[n]);
      var members := t.simple[path[n - 1]].members;
      var i :| 0 <= i < |members| && members[i] == path[n];
      assert Next(t, (d, path[n - 1]), i) == Some((d, path[n]));
      PairExtend(t, start, (d, path[n - 1]), i);
    }
  }

  lemma {:induction false} MoveDerived(t: Types, start: Pair, d: nat, y: nat, k: nat)
    requires Publishable(t) && d < |t.simple| && y < |t.simple| && Up(SimpleParents(t), d, k).Some?
    requires PairReachable(t, start, (d, y))
    ensures Up(SimpleParents(t), d, k).value < |t.simple|
    ensures PairReachable(t, start, (Up(SimpleParents(t), d, k).value, y))
  {
    if k > 0 {
      MoveDerived(t, start, d, y, k - 1);
      var x := Up(SimpleParents(t), d, k - 1).value;
      var rank :| RankedParents(SimpleParents(t), rank);
      assert ParentBelow(SimpleParents(t), rank, x);
      var i := |UnionMembers(t, y)|;
      assert Next(t, (x, y), i) == Some((t.simple[x].base.value, y));
      PairExtend(t, start, (x, y), i);
    }
  }

  /** The pair search answers exactly whether d derives from b. */
  lemma MeetsIffDerived(t: Types, d: nat, b: nat)
    requires Publishable(t) && d < |t.simple| && b < |t.simple|
    ensures Meets(t, (d, b)) <==> SimpleDerived(t, d, b)
  {
    if Meets(t, (d, b)) {
      var z: nat :| PairReachable(t, (d, b), (z, z));
      var path: seq<Pair> :| PairPathTo(t, (d, b), (z, z), path);
      PairsMove(t, d, b, path);
    }
    if SimpleDerived(t, d, b) {
      var z: nat :| Member(t, b, z) && Ancestor(SimpleParents(t), z, d);
      var path: seq<nat> :| PathTo(t, b, z, path);
      PairSelf(t, (d, b));
      MoveBase(t, (d, b), d, path);
      var k: nat :| IsUp(SimpleParents(t), z, d, k);
      MoveDerived(t, (d, b), d, z, k);
    }
  }

  lemma NoMembers(t: Types, b: nat, path: seq<nat>)
    requires b < |t.simple| && t.simple[b].members == [] && MemberPath(t, path) && path[0] == b
    ensures |path| == 1
  {
    if |path| > 1 {
      MemberAt(t, path, 0);
    }
  }

  lemma MemberAt(t: Types, path: seq<nat>, i: nat)
    requires MemberPath(t, path) && i + 1 < |path|
    ensures HasMember(t, path[i], path[i + 1])
  {
  }

  /** Below a type that is no union there are only its descendants. */
  lemma PlainDerived(t: Types, d: nat, b: nat)
    requires Publishable(t) && b < |t.simple| && !t.simple[b].variety.Union? && d != b
    ensures SimpleDerived(t, d, b) <==> ProperAncestor(SimpleParents(t), b, d)
  {
    if SimpleDerived(t, d, b) {
      var z :| Member(t, b, z) && Ancestor(SimpleParents(t), z, d);
      var path: seq<nat> :| PathTo(t, b, z, path);
      NoMembers(t, b, path);
      var k: nat :| IsUp(SimpleParents(t), b, d, k);
      assert k > 0;
    }
    if ProperAncestor(SimpleParents(t), b, d) {
      MemberSelf(t, b);
      assert Ancestor(SimpleParents(t), b, d);
    }
  }

  method SimpleTypeMask(t: Types, d: nat, b: nat) returns (r: Option<Mask>)
    ensures Publishable(t) ==> r == SimpleDerivation(t, d, b)
  {
    if d == b {
      return Some({});
    }
    if d >= |t.simple| || b >= |t.simple| {
      return None;
    }
    var found;
    if t.simple[b].variety.Union? {
      found := SearchPairs(t, d, b);
      if Publishable(t) {
        MeetsIffDerived(t, d, b);
      }
    } else {
      found := SimpleBaseChain(t, d, b);
      if Publishable(t) {
        PlainDerived(t, d, b);
      }
    }
    return if found then Some({Restriction}) else None;
  }

  // ----- complex types -----

  lemma {:induction false} ChainFront(t: Types, d: nat, k: nat)
    requires d < |t.complex| && t.complex[d].base.ComplexId?
    ensures ChainSteps(t, d, k + 1) == [t.complex[d].derivation] + ChainSteps(t, t.complex[d].base.complex, k)
  {
    UpFromParent(ComplexParents(t), d, if k > 0 then k - 1 else 0);
    if k > 0 {
      ChainFront(t, d, k - 1);
    } else {
      assert Up(ComplexParents(t), d, 0) == Some(d);
      assert ChainSteps(t, d, 1) == ChainSteps(t, d, 0) + [t.complex[d].derivation];
    }
  }

  lemma {:induction false} StepsToChain(t: Types, d: nat, b: nat, k: nat)
    requires Forest(ComplexParents(t)) && d < |t.complex|
    requires IsUp(ComplexParents(t), b, d, k) && forall j :: 0 <= j < k ==> !IsUp(ComplexParents(t), b, d, j)
    ensures StepsTo(t, d, b) == ChainSteps(t, d, k)
    decreases k
  {
    assert Up(ComplexParents(t), d, 0) == Some(d);
    if k > 0 {
      assert !IsUp(ComplexParents(t), b, d, 0);
      if t.complex[d].base.ComplexId? {
        var p := t.complex[d].base.complex;
        ParentRanked(t, d);
        forall j | 0 <= j < k - 1
          ensures !IsUp(ComplexParents(t), b, p, j)
        {
          UpFromParent(ComplexParents(t), d, j);
          assert !IsUp(ComplexParents(t), b, d, j + 1);
        }
        UpFromParent(ComplexParents(t), d, k - 1);
        StepsToChain(t, p, b, k - 1);
        ChainFront(t, d, k - 1);
      } else {
        UpFromRoot(ComplexParents(t), d, k - 1);
      }
    }
  }

  lemma {:induction false} TopOfChain(t: Types, d: nat, k: nat, s: nat)
    requires Forest(ComplexParents(t)) && d < |t.complex| && TopAt(t, d, k, s)
    ensures SimpleTop(t, d) == Some(s) && AllSteps(t, d) == ChainSteps(t, d, k + 1)
    decreases k
  {
    assert Up(ComplexParents(t), d, 0) == Some(d);
    if k == 0 {
      assert ChainSteps(t, d, 1) == ChainSteps(t, d, 0) + [t.complex[d].derivation];
    } else {
      if t.complex[d].base.ComplexId? {
        ParentRanked(t, d);
        UpFromParent(ComplexParents(t), d, k - 1);
        TopOfChain(t, t.complex[d].base.complex, k - 1, s);
        ChainFront(t, d, k);
      } else {
        UpFromRoot(ComplexParents(t), d, k - 1);
      }
    }
  }

  lemma {:induction false} TopExists(t: Types, d: nat) returns (k: nat)
    requires Forest(ComplexParents(t)) && d < |t.complex| && SimpleTop(t, d).Some?
    ensures TopAt(t, d, k, SimpleTop(t, d).value)
    decreases ComplexRank(t, d)
  {
    k := 0;
    assert Up(ComplexParents(t), d, 0) == Some(d);
    if t.complex[d].base.ComplexId? {
      ParentRanked(t, d);
      var j := TopExists(t, t.complex[d].base.complex);
      UpFromParent(ComplexParents(t), d, j);
      k := j + 1;
    }
  }

  lemma NoTop(t: Types, d: nat)
    requires Forest(ComplexParents(t)) && d < |t.complex| && forall k: nat, s :: !TopAt(t, d, k, s)
    ensures SimpleTop(t, d).None?
  {
    if SimpleTop(t, d).Some? {
      var k := TopExists(t, d);
    }
  }

  method ComplexToComplexMask(t: Types, d: nat, b: nat) returns (r: Option<Mask>)
    requires Publishable(t) && d < |t.complex| && d != b && b != t.anyType
    ensures r == ComplexToComplex(t, d, b)
  {
    r := ComplexTypeMask(t, d, b);
    assert Ancestor(ComplexParents(t), b, d) <==> ProperAncestor(ComplexParents(t), b, d) by {
      assert !IsUp(ComplexParents(t), b, d, 0);
    }
    if r.Some? {
      ghost var k: nat :| FirstUp(ComplexParents(t), b, d, k) && r.value == MaskOf(ChainSteps(t, d, k));
      assert !IsUp(ComplexParents(t), b, d, 0);
      StepsToChain(t, d, b, k);
    }
  }

  method ComplexToAnyMask(t: Types, d: nat) returns (r: Option<Mask>)
    requires Publishable(t) && d < |t.complex|
    ensures r == ComplexToComplex(t, d, t.anyType)
  {
    r := ComplexAnyMask(t, d);
    ghost var parents := ComplexParents(t);
    if r.None? {
      NoTop(t, d);
    } else if k: nat :| IsUp(parents, t.anyType, d, k) && r.value == MaskOf(ChainSteps(t, d, k))
                        && forall j :: 0 <= j < k ==> !IsUp(parents, t.anyType, d, j) {
      StepsToChain(t, d, t.anyType, k);
    } else {
      ghost var k: nat, s :| TopAt(t, d, k, s) && r.value == MaskOf(ChainSteps(t, d, k + 1)) + {Restriction}
                             && forall j :: 0 <= j <= k ==> !IsUp(parents, t.anyType, d, j);
      TopOfChain(t, d, k, s);
      NoneAbove(parents, t.anyType, d, k);
    }
  }

  method ComplexToSimpleMask(t: Types, d: nat, b: nat) returns (r: Option<Mask>)
    requires Publishable(t) && d < |t.complex|
    ensures r == ComplexToSimple(t, d, b)
  {
    var top, mask := ComplexSimpleTop(t, d);
    match top {
      case None =>
        NoTop(t, d);
        return None;
      case Some(s) =>
        ghost var k: nat :| TopAt(t, d, k, s) && mask == MaskOf(ChainSteps(t, d, k + 1));
        TopOfChain(t, d, k, s);
        var simple := SimpleTypeMask(t, s, b);
        return match simple case None => None case Some(m) => Some(mask + m);
    }
  }

  /** The derivation steps from derived to base, found by walking. */
  method TypeDerivationMask(t: Types, derived: TypeId, base: TypeId) returns (r: Option<Mask>)
    requires Publishable(t) && ValidType(t, derived)
    ensures r == Derivation(t, derived, base)
  {
    if derived == base {
      return Some({});
    }
    if base == ComplexId(t.anyType) {
      if derived.ComplexId? {
        r := ComplexToAnyMask(t, derived.complex);
        return;
      }
      return Some({Restriction});
    }
    match (derived, base) {
      case (ComplexId(d), SimpleId(b)) => r := ComplexToSimpleMask(t, d, b);
      case (ComplexId(d), ComplexId(b)) => r := ComplexToComplexMask(t, d, b);
      case (SimpleId(d), SimpleId(b)) => r := SimpleTypeMask(t, d, b);
      case _ => return None;
    }
  }
}
