/** Parent maps: the chain of ancestors above a node, and when every chain ends. */
module Ancestry {
  import opened Schema

  type Parents = seq<Option<nat>>

  predicate ParentsInRange(parents: Parents) {
    forall i :: 0 <= i < |parents| && parents[i].Some? ==> parents[i].value < |parents|
  }

  /** The k-th ancestor. */
  function Up(parents: Parents, i: nat, k: nat): Option<nat> {
    if k == 0 then Some(i)
    else match Up(parents, i, k - 1)
         case None => None
         case Some(j) => if j < |parents| then parents[j] else None
  }

  ghost predicate IsUp(parents: Parents, b: nat, d: nat, k: nat) {
    Up(parents, d, k) == Some(b)
  }

  /** b is d or one of its ancestors. */
  ghost predicate Ancestor(parents: Parents, b: nat, d: nat) {
    exists k: nat :: IsUp(parents, b, d, k)
  }

  ghost predicate RankedParents(parents: Parents, rank: seq<nat>) {
    && |rank| == |parents|
    && forall i :: 0 <= i < |parents| && parents[i].Some? ==> ParentBelow(parents, rank, i)
  }

  ghost predicate ParentBelow(parents: Parents, rank: seq<nat>, i: nat)
    requires |rank| == |parents| && i < |parents| && parents[i].Some?
  {
    parents[i].value < |parents| && rank[parents[i].value] < rank[i]
  }

  /** Every chain of parents stays in range and ends. */
  ghost predicate Forest(parents: Parents) {
    exists rank: seq<nat> :: RankedParents(parents, rank)
  }

  lemma {:induction false} UpFromParent(parents: Parents, d: nat, k: nat)
    requires d < |parents| && parents[d].Some?
    ensures Up(parents, d, k + 1) == Up(parents, parents[d].value, k)
  {
    if k > 0 {
      UpFromParent(parents, d, k - 1);
    } else {
      assert Up(parents, d, 0) == Some(d);
    }
  }

  lemma {:induction false} UpFromRoot(parents: Parents, d: nat, k: nat)
    requires d < |parents| && parents[d].None?
    ensures Up(parents, d, k + 1).None?
  {
    if k > 0 {
      UpFromRoot(parents, d, k - 1);
    } else {
      assert Up(parents, d, 0) == Some(d);
    }
  }

  lemma AncestorSelf(parents: Parents, d: nat)
    ensures Ancestor(parents, d, d)
  {
    assert IsUp(parents, d, d, 0);
  }

  /** An ancestor is the node itself or an ancestor of its parent. */
  lemma AncestorStep(parents: Parents, b: nat, d: nat)
    requires d < |parents|
    ensures Ancestor(parents, b, d) <==> b == d || (parents[d].Some? && Ancestor(parents, b, parents[d].value))
  {
    AncestorSelf(parents, d);
    if Ancestor(parents, b, d) {
      var k: nat :| IsUp(parents, b, d, k);
      if k > 0 {
        if parents[d].Some? {
          UpFromParent(parents, d, k - 1);
          assert IsUp(parents, b, parents[d].value, k - 1);
        } else {
          UpFromRoot(parents, d, k - 1);
        }
      }
    }
    if parents[d].Some? && Ancestor(parents, b, parents[d].value) {
      var k: nat :| IsUp(parents, b, parents[d].value, k);
      UpFromParent(parents, d, k);
      assert IsUp(parents, b, d, k + 1);
    }
  }

  lemma {:induction false} UpTransitive(parents: Parents, b: nat, c: nat, d: nat, j: nat, k: nat)
    requires Up(parents, c, j) == Some(b) && Up(parents, d, k) == Some(c)
    ensures Up(parents, d, k + j) == Some(b)
    decreases j
  {
    if j > 0 {
      UpTransitive(parents, Up(parents, c, j - 1).value, c, d, j - 1, k);
    }
  }

  lemma AncestorTransitive(parents: Parents, b: nat, c: nat, d: nat)
    requires Ancestor(parents, b, c) && Ancestor(parents, c, d)
    ensures Ancestor(parents, b, d)
  {
    var j: nat :| IsUp(parents, b, c, j);
    var k: nat :| IsUp(parents, c, d, k);
    UpTransitive(parents, b, c, d, j, k);
    assert IsUp(parents, b, d, k + j);
  }

  lemma {:induction false} RankFalls(parents: Parents, rank: seq<nat>, d: nat, k: nat)
    requires RankedParents(parents, rank) && d < |parents| && Up(parents, d, k).Some?
    ensures Up(parents, d, k).value < |parents|
    ensures rank[Up(parents, d, k).value] + k <= rank[d]
  {
    if k > 0 {
      RankFalls(parents, rank, d, k - 1);
      assert ParentBelow(parents, rank, Up(parents, d, k - 1).value);
    }
  }

  // ----- chains that may repeat -----

  /** Distinct numbers below n are at most n. */
  lemma {:induction false} Pigeonhole(xs: seq<nat>, n: nat)
    requires forall i :: 0 <= i < |xs| ==> xs[i] < n
    requires forall i, j :: 0 <= i < j < |xs| ==> xs[i] != xs[j]
    ensures |xs| <= n
    decreases n
  {
    if xs != [] {
      assert 0 <= xs[0] < n;
      if n - 1 in xs {
        var k :| 0 <= k < |xs| && xs[k] == n - 1;
        Pigeonhole(xs[..k] + xs[k + 1..], n - 1);
      } else {
        Pigeonhole(xs, n - 1);
      }
    }
  }

  lemma Collision(xs: seq<nat>, n: nat) returns (u: nat, v: nat)
    requires |xs| > n && forall i :: 0 <= i < |xs| ==> xs[i] < n
    ensures u < v < |xs| && xs[u] == xs[v]
  {
    if forall i, j :: 0 <= i < j < |xs| ==> xs[i] != xs[j] {
      Pigeonhole(xs, n);
    } else {
      u, v :| 0 <= u < v < |xs| && xs[u] == xs[v];
    }
  }

  lemma {:induction false} UpDefined(parents: Parents, d: nat, j: nat, k: nat)
    requires j <= k && Up(parents, d, k).Some?
    ensures Up(parents, d, j).Some?
    ensures j < k ==> Up(parents, d, j).value < |parents|
    decreases k - j
  {
    if j < k {
      UpDefined(parents, d, j + 1, k);
    }
  }

  /** A chain as long as the table repeats within it. */
  lemma ChainRepeats(parents: Parents, d: nat) returns (u: nat, v: nat)
    requires Up(parents, d, |parents|).Some? && Up(parents, d, |parents|).value < |parents|
    ensures u < v <= |parents| && Up(parents, d, u) == Up(parents, d, v)
  {
    var n := |parents|;
    forall j | 0 <= j <= n
      ensures Up(parents, d, j).Some? && Up(parents, d, j).value < n
    {
      UpDefined(parents, d, j, n);
    }
    var xs := seq(n + 1, j requires 0 <= j <= n => Up(parents, d, j).value);
    u, v := Collision(xs, n);
    assert xs[u] == xs[v];
  }

  lemma UpShift(parents: Parents, d: nat, u: nat, v: nat, j: nat)
    requires Up(parents, d, u) == Up(parents, d, v)
    ensures Up(parents, d, u + j) == Up(parents, d, v + j)
  {
    if j > 0 {
      UpShift(parents, d, u, v, j - 1);
    }
  }

  /** An ancestor is met within as many steps as there are nodes. */
  lemma {:induction false} NearbyAncestor(parents: Parents, b: nat, d: nat, k: nat) returns (j: nat)
    requires Up(parents, d, k) == Some(b)
    ensures j <= k && j <= |parents| && Up(parents, d, j) == Some(b)
    ensures b < |parents| ==> j < |parents|
    ensures k > 0 && d != b ==> j > 0
    decreases k
  {
    var n := |parents|;
    if k < n || (k == n && b >= n) {
      j := k;
    } else {
      UpDefined(parents, d, n, k);
      var u, v := ChainRepeats(parents, d);
      UpShift(parents, d, u, v, k - v);
      j := NearbyAncestor(parents, b, d, u + (k - v));
    }
  }

  /** A chain that ends has fewer steps than there are nodes. */
  lemma ChainEnds(parents: Parents, d: nat, k: nat)
    requires Up(parents, d, k).Some? && Up(parents, d, k).value < |parents| && Up(parents, d, k + 1).None?
    ensures k < |parents|
  {
    if k >= |parents| {
      UpDefined(parents, d, |parents|, k);
      var u, v := ChainRepeats(parents, d);
      UpShift(parents, d, u, v, k + 1 - v);
      UpDefined(parents, d, u + (k + 1 - v), k);
    }
  }
}
