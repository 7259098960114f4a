/** Answering derivation questions by walking: up base chains, with a doubling anchor
    against cycles, and through union members by a search over pairs. */
module SlowDerivation {
  import opened Schema
  import opened Ancestry
  import opened TypeGraphs

  // ----- the steps of a chain -----

  ghost function ChainSteps(t: Types, d: nat, k: nat): seq<DerivationKind> {
    if k == 0 then []
    else
      match Up(ComplexParents(t), d, k - 1)
      case None => ChainSteps(t, d, k - 1)
      case Some(x) =>
        ChainSteps(t, d, k - 1) + (if x < |t.complex| then [t.complex[x].derivation] else [])
  }

  ghost predicate FirstUp(parents: Parents, b: nat, d: nat, k: nat) {
    && k > 0 && IsUp(parents, b, d, k)
    && forall j :: 0 < j < k ==> !IsUp(parents, b, d, j)
  }

  ghost predicate ProperAncestor(parents: Parents, b: nat, d: nat) {
    exists k: nat :: k > 0 && IsUp(parents, b, d, k)
  }

  lemma MaskGrows(steps: seq<DerivationKind>, kind: DerivationKind)
    ensures MaskOf(steps + [kind]) == MaskOf(steps) + KindMask(kind)
  {
  }

  // ----- complex types -----

  /** Walks up from d until b; the table's size bounds the walk on any graph. */
  method ComplexTypeMask(t: Types, d: nat, b: nat) returns (r: Option<Mask>)
    requires d != b
    ensures r.Some? <==> ProperAncestor(ComplexParents(t), b, d)
    ensures r.Some? ==> exists k: nat :: FirstUp(ComplexParents(t), b, d, k) && r.value == MaskOf(ChainSteps(t, d, k))
  {
    var mask: Mask := {};
    var current := d;
    ghost var parents := ComplexParents(t);
    for i := 0 to |t.complex|
      invariant Up(parents, d, i) == Some(current)
      invariant mask == MaskOf(ChainSteps(t, d, i))
      invariant forall j :: 0 < j <= i ==> !IsUp(parents, b, d, j)
    {
      if current >= |t.complex| || !t.complex[current].base.ComplexId? {
        ChainStops(parents, b, d, i);
        return None;
      }
      var ct := t.complex[current];
      MaskGrows(ChainSteps(t, d, i), ct.derivation);
      mask := mask + KindMask(ct.derivation);
      assert Up(parents, d, i + 1) == Some(ct.base.complex);
      if ct.base.complex == b {
        assert FirstUp(parents, b, d, i + 1);
        return Some(mask);
      }
      current := ct.base.complex;
    }
    NotNearby(parents, b, d);
    return None;
  }

  lemma ChainStops(parents: Parents, b: nat, d: nat, i: nat)
    requires Up(parents, d, i + 1).None?
    requires forall j :: 0 < j <= i ==> !IsUp(parents, b, d, j)
    ensures !ProperAncestor(parents, b, d)
  {
    forall k: nat | k > 0
      ensures !IsUp(parents, b, d, k)
    {
      if k > i && Up(parents, d, k).Some? {
        UpDefined(parents, d, i + 1, k);
      }
    }
  }

  lemma NotNearby(parents: Parents, b: nat, d: nat)
    requires d != b
    requires forall j :: 0 < j <= |parents| ==> !IsUp(parents, b, d, j)
    ensures !ProperAncestor(parents, b, d)
  {
    if k: nat :| k > 0 && IsUp(parents, b, d, k) {
      var j := NearbyAncestor(parents, b, d, k);
      assert IsUp(parents, b, d, j);
    }
  }

  /** The chain from d ends at a complex type whose base is the simple type s. */
  ghost predicate TopAt(t: Types, d: nat, k: nat, s: nat) {
    var x := Up(ComplexParents(t), d, k);
    x.Some? && x.value < |t.complex| && t.complex[x.value].base == SimpleId(s)
  }

  lemma TopIsNear(t: Types, d: nat, k: nat, s: nat)
    requires TopAt(t, d, k, s)
    ensures k < |t.complex|
  {
    ChainEnds(ComplexParents(t), d, k);
  }

  /** Nothing above a node that is no complex type with a complex base. */
  lemma NoTopAbove(t: Types, d: nat, i: nat)
    requires Up(ComplexParents(t), d, i + 1).None?
    ensures forall k, s :: k > i ==> !TopAt(t, d, k, s)
  {
    forall k, s | k > i && TopAt(t, d, k, s)
      ensures false
    {
      UpDefined(ComplexParents(t), d, i + 1, k);
    }
  }

  /** Walks up from d to the simple type the chain rests on. */
  method ComplexSimpleTop(t: Types, d: nat) returns (top: Option<nat>, mask: Mask)
    ensures top.Some? ==> exists k: nat :: TopAt(t, d, k, top.value) && mask == MaskOf(ChainSteps(t, d, k + 1))
    ensures top.None? ==> forall k: nat, s :: !TopAt(t, d, k, s)
  {
    mask := {};
    var current := d;
    for i := 0 to |t.complex|
      invariant Up(ComplexParents(t), d, i) == Some(current)
      invariant mask == MaskOf(ChainSteps(t, d, i))
      invariant forall k, s :: 0 <= k < i ==> !TopAt(t, d, k, s)
    {
      if current >= |t.complex| {
        NoTopAbove(t, d, i);
        return None, mask;
      }
      var ct := t.complex[current];
      MaskGrows(ChainSteps(t, d, i), ct.derivation);
      mask := mask + KindMask(ct.derivation);
      match ct.base {
        case NoType =>
          NoTopAbove(t, d, i);
          return None, mask;
        case SimpleId(s) =>
          assert TopAt(t, d, i, s);
          return Some(s), mask;
        case ComplexId(p) =>
          current := p;
      }
    }
    forall k: nat, s | TopAt(t, d, k, s)
      ensures k < |t.complex|
    {
      TopIsNear(t, d, k, s);
    }
    return None, mask;
  }

  /** Walks up from d until the any type or a simple base. */
  method ComplexAnyMask(t: Types, d: nat) returns (r: Option<Mask>)
    requires t.anyType < |t.complex|
    ensures r.None? ==>
              (forall k: nat :: !IsUp(ComplexParents(t), t.anyType, d, k)) && forall k: nat, s :: !TopAt(t, d, k, s)
    ensures r.Some? ==>
              || (exists k: nat :: IsUp(ComplexParents(t), t.anyType, d, k) && r.value == MaskOf(ChainSteps(t, d, k))
                                   && forall j :: 0 <= j < k ==> !IsUp(ComplexParents(t), t.anyType, d, j))
              || (exists k: nat, s :: TopAt(t, d, k, s) && r.value == MaskOf(ChainSteps(t, d, k + 1)) + {Restriction}
                                      && forall j :: 0 <= j <= k ==> !IsUp(ComplexParents(t), t.anyType, d, j))
  {
    var mask: Mask := {};
    var current := d;
    ghost var parents := ComplexParents(t);
    for i := 0 to |t.complex|
      invariant Up(parents, d, i) == Some(current)
      invariant mask == MaskOf(ChainSteps(t, d, i))
      invariant forall j :: 0 <= j < i ==> !IsUp(parents, t.anyType, d, j)
      invariant forall k, s :: 0 <= k < i ==> !TopAt(t, d, k, s)
    {
      if current == t.anyType {
        assert IsUp(parents, t.anyType, d, i);
        return Some(mask);
      }
      if current >= |t.complex| {
        NoTopAbove(t, d, i);
        NoneAbove(parents, t.anyType, d, i);
        return None;
      }
      var ct := t.complex[current];
      MaskGrows(ChainSteps(t, d, i), ct.derivation);
      mask := mask + KindMask(ct.derivation);
      match ct.base {
        case NoType =>
          NoTopAbove(t, d, i);
          NoneAbove(parents, t.anyType, d, i);
          return None;
        case SimpleId(s) =>
          assert TopAt(t, d, i, s);
          return Some(mask + {Restriction});
        case ComplexId(p) =>
          current := p;
      }
    }
    forall k: nat, s | TopAt(t, d, k, s)
      ensures k < |t.complex|
    {
      TopIsNear(t, d, k, s);
    }
    forall k: nat
      ensures !IsUp(parents, t.anyType, d, k)
    {
      if IsUp(parents, t.anyType, d, k) {
        var j := NearbyAncestor(parents, t.anyType, d, k);
        assert IsUp(parents, t.anyType, d, j);
      }
    }
    return None;
  }

  lemma NoneAbove(parents: Parents, b: nat, d: nat, i: nat)
    requires Up(parents, d, i + 1).None?
    requires forall j :: 0 <= j <= i ==> !IsUp(parents, b, d, j)
    ensures forall k: nat :: !IsUp(parents, b, d, k)
  {
    forall k: nat
      ensures !IsUp(parents, b, d, k)
    {
      if k > i && Up(parents, d, k).Some? {
        UpDefined(parents, d, i + 1, k);
      }
    }
  }

  // ----- simple base chains -----

  lemma {:induction false} NeverInCycle(parents: Parents, b: nat, d: nat, u: nat, v: nat, k: nat)
    requires u < v && k > 0 && Up(parents, d, u) == Up(parents, d, v)
    requires forall j :: 0 < j <= v ==> !IsUp(parents, b, d, j)
    ensures !IsUp(parents, b, d, k)
    decreases k
  {
    if k > v {
      UpShift(parents, d, u, v, k - v);
      NeverInCycle(parents, b, d, u, v, u + (k - v));
    }
  }

  lemma CycleMisses(parents: Parents, b: nat, d: nat, u: nat, v: nat)
    requires u < v && Up(parents, d, u) == Up(parents, d, v)
    requires forall j :: 0 < j <= v ==> !IsUp(parents, b, d, j)
    ensures !ProperAncestor(parents, b, d)
  {
    forall k: nat | k > 0
      ensures !IsUp(parents, b, d, k)
    {
      NeverInCycle(parents, b, d, u, v, k);
    }
  }

  /** A window that never meets its anchor, and is longer than the way to the anchor,
      starts within the table's size. */
  lemma AnchorIsEarly(parents: Parents, d: nat, a: nat, distance: nat)
    requires Up(parents, d, a + distance).Some? && Up(parents, d, a + distance).value < |parents|
    requires forall j :: a < j <= a + distance ==> Up(parents, d, j) != Up(parents, d, a)
    requires distance > a
    ensures a < |parents|
  {
    UpDefined(parents, d, a, a + distance);
    if a >= |parents| {
      var j := RepeatsSoon(parents, d, a);
    }
  }

  /** Past the table's size a chain comes back to its node within that many steps. */
  lemma RepeatsSoon(parents: Parents, d: nat, a: nat) returns (j: nat)
    requires a >= |parents| && Up(parents, d, a).Some? && Up(parents, d, a).value < |parents|
    ensures a < j <= a + |parents| && Up(parents, d, j) == Up(parents, d, a)
  {
    UpDefined(parents, d, |parents|, a);
    var u, v := ChainRepeats(parents, d);
    UpShift(parents, d, u, v, a - u);
    j := v + (a - u);
  }

  /** Follows base links from d. The anchor moves to the current node after 1, 2, 4, ...
      steps; meeting it again means the chain is a cycle. It ends on every graph. */
  method SimpleBaseChain(t: Types, d: nat, b: nat) returns (found: bool)
    requires d < |t.simple| && d != b
    ensures found <==> ProperAncestor(SimpleParents(t), b, d)
  {
    ghost var parents := SimpleParents(t);
    ghost var n := |t.simple|;
    ghost var a := 0;
    var current, anchor := d, d;
    var power, distance := 1, 0;
    while true
      invariant current < n && Up(parents, d, a + distance) == Some(current)
      invariant Up(parents, d, a) == Some(anchor)
      invariant power == a + 1 && distance < power <= 2 * n
      invariant forall j :: 0 < j <= a + distance ==> !IsUp(parents, b, d, j)
      invariant forall j :: a < j <= a + distance ==> Up(parents, d, j) != Up(parents, d, a)
      decreases 4 * n - (a + distance)
    {
      var base := t.simple[current].base;
      if base.None? {
        ChainStops(parents, b, d, a + distance);
        return false;
      }
      if base.value == current {
        SelfBase(parents, b, d, a + distance);
        return false;
      }
      assert Up(parents, d, a + distance + 1) == base;
      current := base.value;
      if current == b {
        assert IsUp(parents, b, d, a + distance + 1);
        return true;
      }
      distance := distance + 1;
      if current == anchor {
        CycleMisses(parents, b, d, a, a + distance);
        return false;
      }
      if distance == power {
        if current < |t.simple| {
          AnchorIsEarly(parents, d, a, distance);
        }
        a := a + distance;
        anchor := current;
        power := power * 2;
        distance := 0;
      }
      if current >= |t.simple| {
        ChainStops(parents, b, d, a + distance);
        return false;
      }
    }
  }

  lemma SelfBase(parents: Parents, b: nat, d: nat, i: nat)
    requires Up(parents, d, i).Some? && d != b
    requires Up(parents, d, i).value < |parents| && parents[Up(parents, d, i).value] == Up(parents, d, i)
    requires forall j :: 0 < j <= i ==> !IsUp(parents, b, d, j)
    ensures !ProperAncestor(parents, b, d)
  {
    assert Up(parents, d, i + 1) == Up(parents, d, i);
    assert i == 0 ==> Up(parents, d, 0) == Some(d);
    assert i > 0 ==> !IsUp(parents, b, d, i);
    assert !IsUp(parents, b, d, i + 1);
    CycleMisses(parents, b, d, i, i + 1);
  }
}
