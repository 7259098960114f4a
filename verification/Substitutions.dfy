/** Substitution groups: heads are processed before their members, members may take
    their head's type, and what is left over runs into a cycle. */
module Substitutions {
  import opened Schema
  import opened Ancestry

  // ----- chains of heads -----

  /** The chain of heads above m ends. */
  ghost predicate Ends(heads: Parents, m: nat) {
    exists k: nat :: EndsAt(heads, m, k)
  }

  ghost predicate EndsAt(heads: Parents, m: nat, k: nat) {
    Up(heads, m, k).None?
  }

  lemma EndsStep(heads: Parents, m: nat)
    requires m < |heads|
    ensures Ends(heads, m) <==> heads[m].None? || Ends(heads, heads[m].value)
  {
    if heads[m].None? {
      UpFromRoot(heads, m, 0);
      assert EndsAt(heads, m, 1);
    } else {
      if Ends(heads, m) {
        var k: nat :| EndsAt(heads, m, k);
        assert k > 0 by {
          assert Up(heads, m, 0) == Some(m);
        }
        UpFromParent(heads, m, k - 1);
        assert EndsAt(heads, heads[m].value, k - 1);
      }
      if Ends(heads, heads[m].value) {
        var k: nat :| EndsAt(heads, heads[m].value, k);
        UpFromParent(heads, m, k);
        assert EndsAt(heads, m, k + 1);
      }
    }
  }

  /** x comes back to itself. */
  ghost predicate OnCycle(heads: Parents, x: nat) {
    exists k: nat :: k > 0 && IsUp(heads, x, x, k)
  }

  /** A chain runs into a cycle exactly when it does not end. */
  lemma EndsOrCycles(heads: Parents, m: nat)
    requires ParentsInRange(heads) && m < |heads|
    ensures !Ends(heads, m) <==> exists x :: Ancestor(heads, x, m) && OnCycle(heads, x)
  {
    if !Ends(heads, m) {
      assert forall k: nat :: !EndsAt(heads, m, k);
      var x := CycleAbove(heads, m);
    }
    if x :| Ancestor(heads, x, m) && OnCycle(heads, x) {
      var j: nat :| IsUp(heads, x, m, j);
      var k: nat :| k > 0 && IsUp(heads, x, x, k);
      forall n: nat
        ensures !EndsAt(heads, m, n)
      {
        AroundAgain(heads, x, m, j, k, n);
      }
    }
  }

  lemma AroundAgain(heads: Parents, x: nat, m: nat, j: nat, k: nat, n: nat)
    requires IsUp(heads, x, m, j) && k > 0 && IsUp(heads, x, x, k)
    ensures Up(heads, m, n).Some?
    decreases if n > j then n - j else 0
  {
    if n <= j {
      UpDefined(heads, m, n, j);
    } else {
      UpTransitive(heads, x, x, m, k, j);
      assert IsUp(heads, x, m, j + k);
      AroundAgain(heads, x, m, j + k, k, n);
    }
  }

  /** As many steps up as there are elements lead onto the cycle. */
  lemma CycleAbove(heads: Parents, m: nat) returns (x: nat)
    requires ParentsInRange(heads) && m < |heads| && forall k: nat :: !EndsAt(heads, m, k)
    ensures x < |heads| && Up(heads, m, |heads|) == Some(x)
    ensures Ancestor(heads, x, m) && OnCycle(heads, x)
  {
    var n := |heads|;
    assert !EndsAt(heads, m, n) && !EndsAt(heads, m, n + 1);
    x := Up(heads, m, n).value;
    UpDefined(heads, m, n, n + 1);
    var u, v := ChainRepeats(heads, m);
    UpShift(heads, m, u, v, n - u);
    UpSplit(heads, m, n, v - u);
    assert v + (n - u) == n + (v - u);
    assert IsUp(heads, x, x, v - u);
    assert IsUp(heads, x, m, n);
  }

  lemma {:induction false} UpSplit(heads: Parents, m: nat, n: nat, j: nat)
    requires Up(heads, m, n).Some?
    ensures Up(heads, m, n + j) == Up(heads, Up(heads, m, n).value, j)
    decreases j
  {
    if j > 0 {
      UpSplit(heads, m, n, j - 1);
    }
  }

  /** From an element that was left over, the walk stops on the cycle. */
  method SubstitutionCycleElement(start: nat, heads: Parents) returns (r: Option<nat>)
    requires ParentsInRange(heads) && start < |heads|
    ensures !Ends(heads, start) ==> r.Some? && OnCycle(heads, r.value) && Ancestor(heads, r.value, start)
    ensures Ends(heads, start) ==> r.None?
  {
    var current := Some(start);
    for i := 0 to |heads|
      invariant current == Up(heads, start, i)
      invariant current.Some? ==> current.value < |heads|
    {
      if current.None? {
        assert EndsAt(heads, start, i);
        return None;
      }
      current := heads[current.value];
    }
    if !Ends(heads, start) {
      assert forall k: nat :: !EndsAt(heads, start, k);
      var x := CycleAbove(heads, start);
    } else if current.Some? {
      LongChainsCycle(heads, start);
    }
    return current;
  }

  /** A chain as long as the table never ends. */
  lemma LongChainsCycle(heads: Parents, m: nat)
    requires ParentsInRange(heads) && m < |heads| && Up(heads, m, |heads|).Some?
    requires Up(heads, m, |heads|).value < |heads|
    ensures !Ends(heads, m)
  {
    var u, v := ChainRepeats(heads, m);
    UpDefined(heads, m, u, |heads|);
    var x := Up(heads, m, u).value;
    UpSplit(heads, m, u, v - u);
    forall n: nat
      ensures !EndsAt(heads, m, n)
    {
      AroundAgain(heads, x, m, u, v - u, n);
    }
  }

  // ----- types along the chain -----

  /** An inheriting element has its head's final type, hence that of the nearest head
      that does not inherit. */
  ghost function FinalType<T>(heads: Parents, inherits: seq<bool>, types: seq<T>, m: nat, steps: nat): T
    requires |heads| == |inherits| == |types| && ParentsInRange(heads) && m < |heads|
    decreases steps
  {
    if steps == 0 || !inherits[m] || heads[m].None? then types[m]
    else FinalType(heads, inherits, types, heads[m].value, steps - 1)
  }

  /** Along a chain that ends, the final type does not depend on how far one may look. */
  lemma {:induction false} FinalTypeSettles<T>(heads: Parents, inherits: seq<bool>, types: seq<T>, m: nat, k: nat, steps: nat)
    requires |heads| == |inherits| == |types| && ParentsInRange(heads) && m < |heads|
    requires EndsAt(heads, m, k) && steps >= k
    ensures FinalType(heads, inherits, types, m, steps) == FinalType(heads, inherits, types, m, k)
    decreases k
  {
    assert Up(heads, m, 0) == Some(m);
    if heads[m].Some? {
      UpFromParent(heads, m, k - 1);
      FinalTypeSettles(heads, inherits, types, heads[m].value, k - 1, steps - 1);
    }
  }

  /** A chain that ends does so within as many steps as there are elements. */
  lemma EndsSoon(heads: Parents, m: nat)
    requires ParentsInRange(heads) && m < |heads| && Ends(heads, m)
    ensures EndsAt(heads, m, |heads|)
  {
    if Up(heads, m, |heads|).Some? {
      ValuesInRange(heads, m, |heads|);
      LongChainsCycle(heads, m);
    }
  }

  lemma {:induction false} ValuesInRange(heads: Parents, m: nat, k: nat)
    requires ParentsInRange(heads) && m < |heads| && Up(heads, m, k).Some?
    ensures Up(heads, m, k).value < |heads|
  {
    if k > 0 {
      ValuesInRange(heads, m, k - 1);
    }
  }

  ghost function Final<T>(heads: Parents, inherits: seq<bool>, types: seq<T>, m: nat): T
    requires |heads| == |inherits| == |types| && ParentsInRange(heads) && m < |heads|
  {
    FinalType(heads, inherits, types, m, |heads|)
  }

  /** One step of the final type. */
  lemma FinalStep<T>(heads: Parents, inherits: seq<bool>, types: seq<T>, m: nat)
    requires |heads| == |inherits| == |types| && ParentsInRange(heads) && m < |heads| && Ends(heads, m)
    ensures Final(heads, inherits, types, m) ==
            if inherits[m] && heads[m].Some? then Final(heads, inherits, types, heads[m].value) else types[m]
  {
    if inherits[m] && heads[m].Some? {
      EndsSoon(heads, m);
      var n := |heads|;
      UpFromParent(heads, m, n - 1);
      FinalTypeSettles(heads, inherits, types, heads[m].value, n - 1, n);
    }
  }

  /** The final type is declared by the nearest element up the chain that does not inherit
      or has no head. */
  lemma {:induction false} NearestDeclared<T>(heads: Parents, inherits: seq<bool>, types: seq<T>, m: nat, k: nat) returns (j: nat)
    requires |heads| == |inherits| == |types| && ParentsInRange(heads) && m < |heads| && EndsAt(heads, m, k)
    ensures Up(heads, m, j).Some? && Up(heads, m, j).value < |heads|
    ensures var h := Up(heads, m, j).value;
            (!inherits[h] || heads[h].None?) && Final(heads, inherits, types, m) == types[h]
    ensures forall i :: 0 <= i < j ==> StillInherits(heads, inherits, m, i)
    decreases k
  {
    assert Up(heads, m, 0) == Some(m) && Ends(heads, m);
    FinalStep(heads, inherits, types, m);
    if !inherits[m] || heads[m].None? {
      j := 0;
    } else {
      var p := heads[m].value;
      UpFromParent(heads, m, k - 1);
      var i := NearestDeclared(heads, inherits, types, p, k - 1);
      j := i + 1;
      UpFromParent(heads, m, i);
      forall a | 0 <= a < j
        ensures StillInherits(heads, inherits, m, a)
      {
        if a > 0 {
          UpFromParent(heads, m, a - 1);
          assert StillInherits(heads, inherits, p, a - 1);
        }
      }
    }
  }

  ghost predicate StillInherits(heads: Parents, inherits: seq<bool>, m: nat, i: nat) {
    var h := Up(heads, m, i);
    h.Some? && h.value < |heads| && h.value < |inherits| && inherits[h.value] && heads[h.value].Some?
  }

  // ----- the worklist -----

  /** Members of one head, as linked so far. */
  ghost predicate MembersOf(heads: Parents, members: seq<nat>, n: nat, h: nat) {
    NoRepeats(members) && forall m: nat :: m in members <==> m < n && m < |heads| && heads[m] == Some(h)
  }

  ghost predicate ChildrenOf(heads: Parents, children: seq<seq<nat>>, n: nat) {
    |children| == |heads| && forall h: nat :: h < |children| ==> MembersOf(heads, children[h], n, h)
  }

  predicate NoRepeats(xs: seq<nat>) {
    forall i, j :: 0 <= i < j < |xs| ==> xs[i] != xs[j]
  }

  method LinkMembers(heads: Parents) returns (children: seq<seq<nat>>)
    requires ParentsInRange(heads)
    ensures ChildrenOf(heads, children, |heads|)
  {
    children := seq(|heads|, _ => []);
    for m := 0 to |heads|
      invariant ChildrenOf(heads, children, m)
    {
      ghost var before := children;
      if heads[m].Some? {
        var h := heads[m].value;
        children := children[h := children[h] + [m]];
      }
      var n := m + 1;
      forall h: nat | h < |children|
        ensures MembersOf(heads, children[h], n, h)
      {
        assert MembersOf(heads, before[h], m, h);
      }
    }
  }

  datatype WorkCase<T> = WorkCase(heads: Parents, inherits: seq<bool>, declared: seq<T>, types: seq<T>, open: seq<bool>, queue: seq<nat>, next: nat)

  /** What is queued is settled, and nothing else is. */
  ghost predicate Settling<T>(w: WorkCase<T>) {
    match w case WorkCase(heads, inherits, declared, types, open, queue, next) =>
      && |heads| == |inherits| == |declared| == |types| == |open| && ParentsInRange(heads)
      && next <= |queue| && NoRepeats(queue)
      && (forall m :: m in queue ==> m < |heads|)
      && (forall m :: 0 <= m < |heads| ==> (open[m] <==> m !in queue))
      && (forall m :: 0 <= m < |heads| && m in queue ==> Ends(heads, m) && types[m] == Final(heads, inherits, declared, m))
      && (forall m :: 0 <= m < |heads| && m !in queue ==> types[m] == declared[m])
  }

  /** Members are queued when their head is taken from the queue, and not before. */
  ghost predicate HeadsFirst(heads: Parents, queue: seq<nat>, done: seq<nat>) {
    forall m :: 0 <= m < |heads| ==> (m in queue <==> heads[m].None? || heads[m].value in done)
  }

  /** Queues one member of a head that is settled. */
  lemma MemberSettled<T>(w: WorkCase<T>, h: nat, m: nat)
    requires Settling(w) && h in w.queue && m < |w.heads| && w.heads[m] == Some(h) && m !in w.queue
    ensures Settling(w.(types := w.types[m := if w.inherits[m] then w.types[h] else w.types[m]],
                        open := w.open[m := false], queue := w.queue + [m]))
  {
    EndsStep(w.heads, m);
    FinalStep(w.heads, w.inherits, w.declared, m);
  }

  /** An element whose chain ends is reached by a finished worklist. */
  lemma {:induction false} EndingIsQueued(heads: Parents, queue: seq<nat>, m: nat, k: nat)
    requires ParentsInRange(heads) && HeadsFirst(heads, queue, queue) && m < |heads| && EndsAt(heads, m, k)
    ensures m in queue
    decreases k
  {
    assert Up(heads, m, 0) == Some(m);
    if heads[m].Some? {
      UpFromParent(heads, m, k - 1);
      EndingIsQueued(heads, queue, heads[m].value, k - 1);
    }
  }

  lemma QueueFits(queue: seq<nat>, n: nat)
    requires NoRepeats(queue) && forall m :: m in queue ==> m < n
    ensures |queue| <= n
  {
    assert forall i :: 0 <= i < |queue| ==> queue[i] in queue;
    Pigeonhole(queue, n);
  }

  class SubstitutionWorklist<T> {
    const heads: Parents
    const inherits: seq<bool>
    ghost const declared: seq<T>
    var types: seq<T>
    var open: seq<bool>
    var queue: seq<nat>
    var next: nat

    constructor (heads: Parents, inherits: seq<bool>, types: seq<T>)
      requires |heads| == |inherits| == |types| && ParentsInRange(heads)
      ensures this.heads == heads && this.inherits == inherits && declared == types
      ensures Settling(Now()) && next == 0 && queue == []
    {
      this.heads, this.inherits, this.types, declared := heads, inherits, types, types;
      open := seq(|heads|, _ => true);
      queue, next := [], 0;
    }

    ghost function Now(): WorkCase<T>
      reads this
    {
      WorkCase(heads, inherits, declared, types, open, queue, next)
    }

    /** Elements without a head come first. */
    method QueueRoots()
      requires Settling(Now()) && next == 0 && queue == []
      modifies this
      ensures Settling(Now()) && next == 0 && HeadsFirst(heads, queue, [])
    {
      for m := 0 to |heads|
        invariant Settling(Now()) && next == 0
        invariant forall i :: 0 <= i < |heads| ==> (i in queue <==> i < m && heads[i].None?)
      {
        if heads[m].None? {
          EndsStep(heads, m);
          FinalStep(heads, inherits, declared, m);
          queue := queue + [m];
          open := open[m := false];
        }
      }
    }

    /** Gives a member its type and queues it. */
    method SettleMember(h: nat, m: nat)
      requires Settling(Now()) && h in queue && m < |heads| && heads[m] == Some(h) && m !in queue
      modifies this`types, this`open, this`queue
      ensures Settling(Now()) && queue == old(queue) + [m]
    {
      MemberSettled(Now(), h, m);
      if inherits[m] {
        types := types[m := types[h]];
      }
      open := open[m := false];
      queue := queue + [m];
    }

    /** Settles the members of one head. */
    method SettleAll(h: nat, members: seq<nat>, ghost taken: seq<nat>)
      requires Settling(Now()) && h in queue && MembersOf(heads, members, |heads|, h)
      requires HeadsFirst(heads, queue, taken) && h !in taken
      modifies this`types, this`open, this`queue
      ensures Settling(Now()) && old(queue) <= queue && HeadsFirst(heads, queue, taken + [h])
    {
      for i := 0 to |members|
        invariant Settling(Now()) && old(queue) <= queue && h in queue
        invariant forall m :: 0 <= m < |heads| ==> (m in queue <==> heads[m].None? || heads[m].value in taken || m in members[..i])
      {
        var m := members[i];
        assert m in members && members[..i + 1] == members[..i] + [m] && m !in members[..i];
        SettleMember(h, m);
      }
      assert members[..|members|] == members;
    }

    /** Takes the next head and settles its members. */
    method SettleMembers(children: seq<seq<nat>>)
      requires Settling(Now()) && next < |queue| && ChildrenOf(heads, children, |heads|)
      requires HeadsFirst(heads, queue, queue[..next])
      modifies this
      ensures Settling(Now()) && next == old(next) + 1 && old(queue) <= queue
      ensures HeadsFirst(heads, queue, queue[..next])
    {
      var h := queue[next];
      assert h in queue && h !in queue[..next];
      ghost var taken := queue[..next];
      next := next + 1;
      assert MembersOf(heads, children[h], |heads|, h);
      SettleAll(h, children[h], taken);
      assert queue[..next] == taken + [h];
    }

    /** Elements left open are exactly those whose heads run into a cycle; every other
        element has its final type. */
    method Run()
      requires Settling(Now()) && next == 0 && queue == []
      modifies this
      ensures |open| == |types| == |heads|
      ensures forall m :: 0 <= m < |heads| ==> (open[m] <==> !Ends(heads, m))
      ensures forall m :: 0 <= m < |heads| && Ends(heads, m) ==> types[m] == Final(heads, inherits, declared, m)
      ensures forall m :: 0 <= m < |heads| && !Ends(heads, m) ==> types[m] == declared[m]
    {
      var children := LinkMembers(heads);
      QueueRoots();
      while next < |queue|
        invariant Settling(Now()) && HeadsFirst(heads, queue, queue[..next])
        decreases |heads| - next
      {
        QueueFits(queue, |heads|);
        SettleMembers(children);
      }
      assert queue[..next] == queue;
      forall m | 0 <= m < |heads|
        ensures m in queue <==> Ends(heads, m)
      {
        if Ends(heads, m) {
          var k: nat :| EndsAt(heads, m, k);
          EndingIsQueued(heads, queue, m, k);
        }
      }
    }
  }
}
