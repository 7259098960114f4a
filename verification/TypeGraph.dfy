/** Simple and complex types as a derivation graph, and what it means for one type to
    derive from another. */
module TypeGraphs {
  import opened Schema
  import opened Ancestry

  datatype TypeId = NoType | SimpleId(simple: nat) | ComplexId(complex: nat)

  datatype Variety = Atomic | List | Union

  datatype SimpleType = SimpleType(members: seq<nat>, base: Option<nat>, variety: Variety)

  datatype DerivationKind = NoDerivation | Extension | Restriction

  datatype ComplexType = ComplexType(base: TypeId, derivation: DerivationKind)

  datatype Types = Types(simple: seq<SimpleType>, complex: seq<ComplexType>, anyType: nat)

  /** The derivation steps that are recorded. */
  type Mask = set<DerivationKind>

  function KindMask(kind: DerivationKind): Mask {
    if kind.NoDerivation? then {} else {kind}
  }

  // ----- parent maps -----

  function SimpleParents(t: Types): (r: Parents)
    ensures |r| == |t.simple| && forall i :: 0 <= i < |r| ==> r[i] == t.simple[i].base
  {
    seq(|t.simple|, i requires 0 <= i < |t.simple| => t.simple[i].base)
  }

  function ComplexParent(c: ComplexType): Option<nat> {
    if c.base.ComplexId? then Some(c.base.complex) else None
  }

  function ComplexParents(t: Types): (r: Parents)
    ensures |r| == |t.complex| && forall i :: 0 <= i < |r| ==> r[i] == ComplexParent(t.complex[i])
  {
    seq(|t.complex|, i requires 0 <= i < |t.complex| => ComplexParent(t.complex[i]))
  }

  predicate ValidType(t: Types, id: TypeId) {
    match id
    case NoType => false
    case SimpleId(i) => i < |t.simple|
    case ComplexId(i) => i < |t.complex|
  }

  /** The graphs that are published: references in range, bases acyclic, and members
      only on unions. */
  ghost predicate Publishable(t: Types) {
    && t.anyType < |t.complex|
    && Forest(SimpleParents(t)) && Forest(ComplexParents(t))
    && (forall i :: 0 <= i < |t.complex| && t.complex[i].base.SimpleId? ==> t.complex[i].base.simple < |t.simple|)
    && (forall i, j :: 0 <= i < |t.simple| && 0 <= j < |t.simple[i].members| ==> t.simple[i].members[j] < |t.simple|)
    && (forall i :: 0 <= i < |t.simple| && !t.simple[i].variety.Union? ==> t.simple[i].members == [])
  }

  // ----- members of unions -----

  ghost predicate MemberPath(t: Types, path: seq<nat>) {
    && path != []
    && forall i, j :: 0 <= i < j < |path| && j == i + 1 ==> HasMember(t, path[i], path[j])
  }

  predicate HasMember(t: Types, x: nat, m: nat) {
    x < |t.simple| && m in t.simple[x].members
  }

  ghost predicate PathTo(t: Types, b: nat, z: nat, path: seq<nat>) {
    MemberPath(t, path) && path[0] == b && path[|path| - 1] == z
  }

  /** z is b or a member of it, at any depth. */
  ghost predicate Member(t: Types, b: nat, z: nat) {
    exists path: seq<nat> :: PathTo(t, b, z, path)
  }

  lemma MemberSelf(t: Types, b: nat)
    ensures Member(t, b, b)
  {
    assert PathTo(t, b, b, [b]);
  }

  lemma MemberExtend(t: Types, b: nat, x: nat, m: nat)
    requires Member(t, b, x) && HasMember(t, x, m)
    ensures Member(t, b, m)
  {
    var path: seq<nat> :| PathTo(t, b, x, path);
    assert PathTo(t, b, m, path + [m]);
  }

  /** A set that holds b and the members of its elements holds everything reachable. */
  lemma {:induction false} MemberClosed(t: Types, b: nat, closed: iset<nat>, path: seq<nat>)
    requires b in closed && forall x, m :: x in closed && HasMember(t, x, m) ==> m in closed
    requires MemberPath(t, path) && path[0] == b
    ensures path[|path| - 1] in closed
    decreases |path|
  {
    if |path| > 1 {
      var n := |path| - 1;
      MemberClosed(t, b, closed, path[..n]);
      assert HasMember(t, path[n - 1], path[n]);
    }
  }

  // ----- simple types -----

  /** A simple type derives from another when it is below it, or below one of its members. */
  ghost predicate SimpleDerived(t: Types, d: nat, b: nat) {
    exists z :: Member(t, b, z) && Ancestor(SimpleParents(t), z, d)
  }

  ghost function SimpleDerivation(t: Types, d: nat, b: nat): Option<Mask> {
    if d == b then Some({})
    else if d < |t.simple| && b < |t.simple| && SimpleDerived(t, d, b) then Some({Restriction})
    else None
  }

  // ----- complex types -----

  ghost function ComplexRank(t: Types, x: nat): nat
    requires Forest(ComplexParents(t)) && x < |t.complex|
  {
    ForestRank(ComplexParents(t))[x]
  }

  ghost function ForestRank(parents: Parents): (rank: seq<nat>)
    requires Forest(parents)
    ensures RankedParents(parents, rank)
  {
    var rank: seq<nat> :| RankedParents(parents, rank); rank
  }

  lemma ParentRanked(t: Types, x: nat)
    requires Forest(ComplexParents(t)) && x < |t.complex| && t.complex[x].base.ComplexId?
    ensures t.complex[x].base.complex < |t.complex|
    ensures ComplexRank(t, t.complex[x].base.complex) < ComplexRank(t, x)
  {
    assert ParentBelow(ComplexParents(t), ForestRank(ComplexParents(t)), x);
  }

  /** The steps of the whole chain from x up. */
  ghost function AllSteps(t: Types, x: nat): seq<DerivationKind>
    requires Forest(ComplexParents(t)) && x < |t.complex|
    decreases ComplexRank(t, x)
  {
    if t.complex[x].base.ComplexId? then
      ParentRanked(t, x);
      [t.complex[x].derivation] + AllSteps(t, t.complex[x].base.complex)
    else [t.complex[x].derivation]
  }

  /** The steps from x up to, and not including, its ancestor y. */
  ghost function StepsTo(t: Types, x: nat, y: nat): seq<DerivationKind>
    requires Forest(ComplexParents(t)) && x < |t.complex|
    decreases ComplexRank(t, x)
  {
    if x == y || !t.complex[x].base.ComplexId? then []
    else
      ParentRanked(t, x);
      [t.complex[x].derivation] + StepsTo(t, t.complex[x].base.complex, y)
  }

  /** The simple type at the top of x's chain. */
  ghost function SimpleTop(t: Types, x: nat): Option<nat>
    requires Forest(ComplexParents(t)) && x < |t.complex|
    decreases ComplexRank(t, x)
  {
    match t.complex[x].base
    case NoType => None
    case SimpleId(s) => Some(s)
    case ComplexId(p) => ParentRanked(t, x); SimpleTop(t, p)
  }

  ghost function MaskOf(steps: seq<DerivationKind>): Mask {
    set k | k in steps && !k.NoDerivation?
  }

  // ----- the derivation between two types -----

  ghost function ComplexToComplex(t: Types, d: nat, b: nat): Option<Mask>
    requires Forest(ComplexParents(t)) && d < |t.complex|
  {
    if Ancestor(ComplexParents(t), b, d) then Some(MaskOf(StepsTo(t, d, b)))
    else if b == t.anyType && SimpleTop(t, d).Some? then Some(MaskOf(AllSteps(t, d)) + {Restriction})
    else None
  }

  ghost function ComplexToSimple(t: Types, d: nat, b: nat): Option<Mask>
    requires Forest(ComplexParents(t)) && d < |t.complex|
  {
    match SimpleTop(t, d)
    case None => None
    case Some(s) =>
      match SimpleDerivation(t, s, b)
      case None => None
      case Some(mask) => Some(MaskOf(AllSteps(t, d)) + mask)
  }

  /** How d derives from b, if it does. */
  ghost function Derivation(t: Types, d: TypeId, b: TypeId): Option<Mask>
    requires Forest(ComplexParents(t)) && ValidType(t, d)
  {
    if d == b then Some({})
    else
      match (d, b)
      case (ComplexId(x), ComplexId(y)) => ComplexToComplex(t, x, y)
      case (ComplexId(x), SimpleId(y)) => ComplexToSimple(t, x, y)
      case (SimpleId(x), SimpleId(y)) => SimpleDerivation(t, x, y)
      case (SimpleId(x), ComplexId(y)) => if y == t.anyType then Some({Restriction}) else None
      case _ => None
  }
}
