/** Numbering a parent map by a depth-first walk: a node's interval holds exactly the
    nodes below it. */
module DerivationForests {
  import opened Schema
  import opened Ancestry

  datatype Visit = New | Open | Done

  datatype ForestFrame = ForestFrame(node: nat, child: Option<nat>)

  // ----- child lists -----

  /** Sibling links lead to smaller children. */
  predicate LinksFall(next: seq<Option<nat>>) {
    forall c :: 0 <= c < |next| && next[c].Some? ==> next[c].value < c
  }

  /** x is on the sibling list that starts at c. */
  predicate Listed(next: seq<Option<nat>>, c: Option<nat>, x: nat)
    requires LinksFall(next)
    decreases if c.Some? then c.value + 1 else 0
  {
    c.Some? && c.value < |next| && (x == c.value || Listed(next, next[c.value], x))
  }

  /** The list of p holds exactly its children before n. */
  ghost predicate ListFor(parents: Parents, first: seq<Option<nat>>, next: seq<Option<nat>>, n: nat, p: nat)
    requires |first| == |next| == |parents| && LinksFall(next) && p < |parents|
  {
    forall c: nat :: c < |parents| ==> OnList(next, first[p], c) == (c < n && parents[c] == Some(p))
  }

  predicate OnList(next: seq<Option<nat>>, c: Option<nat>, x: nat)
    requires LinksFall(next)
  {
    Listed(next, c, x)
  }

  ghost predicate ListsChildren(parents: Parents, first: seq<Option<nat>>, next: seq<Option<nat>>, n: nat) {
    && |first| == |next| == |parents| && LinksFall(next)
    && (forall p :: 0 <= p < |first| && first[p].Some? ==> first[p].value < n)
    && forall p: nat :: p < |parents| ==> ListFor(parents, first, next, n, p)
  }

  lemma {:induction false} ListedBelow(next: seq<Option<nat>>, c: Option<nat>, x: nat)
    requires LinksFall(next) && Listed(next, c, x)
    ensures x <= c.value && x < |next|
    decreases if c.Some? then c.value + 1 else 0
  {
    if x != c.value {
      ListedBelow(next, next[c.value], x);
    }
  }

  /** Relinking a larger child does not change a list. */
  lemma {:induction false} ListedUnchanged(next: seq<Option<nat>>, next': seq<Option<nat>>, c: Option<nat>, x: nat, k: nat)
    requires LinksFall(next) && LinksFall(next') && |next| == |next'|
    requires forall i :: 0 <= i < |next| && i != k ==> next[i] == next'[i]
    requires c.Some? ==> c.value < k
    ensures Listed(next, c, x) == Listed(next', c, x)
    decreases if c.Some? then c.value + 1 else 0
  {
    if c.Some? && c.value < |next| {
      ListedUnchanged(next, next', next[c.value], x, k);
    }
  }

  lemma ListsGrow(parents: Parents, first: seq<Option<nat>>, next: seq<Option<nat>>, n: nat)
    requires n < |parents| && ListsChildren(parents, first, next, n)
    requires parents[n].Some? && parents[n].value < |parents|
    ensures ListsChildren(parents, first[parents[n].value := Some(n)], next[n := first[parents[n].value]], n + 1)
  {
    var q := parents[n].value;
    var first', next' := first[q := Some(n)], next[n := first[q]];
    assert LinksFall(next');
    var m := n + 1;
    forall p: nat | p < |parents|
      ensures ListFor(parents, first', next', m, p)
    {
      assert ListFor(parents, first, next, n, p);
      forall c: nat | c < |parents|
        ensures OnList(next', first'[p], c) == (c < n + 1 && parents[c] == Some(p))
      {
        ListedUnchanged(next, next', first[p], c, n);
        assert OnList(next, first[p], c) == (c < n && parents[c] == Some(p));
      }
    }
  }

  lemma NotLinked(parents: Parents, first: seq<Option<nat>>, next: seq<Option<nat>>, n: nat)
    requires n < |parents| && ListsChildren(parents, first, next, n) && parents[n].None?
    ensures ListsChildren(parents, first, next, n + 1)
  {
    var m := n + 1;
    forall p: nat | p < |parents|
      ensures ListFor(parents, first, next, m, p)
    {
      assert ListFor(parents, first, next, n, p);
    }
  }

  /** Links every node into its parent's child list. */
  method LinkChildren(parents: Parents, first: array<Option<nat>>, next: array<Option<nat>>) returns (ok: bool)
    requires first.Length == next.Length == |parents| && first != next
    requires forall i :: 0 <= i < |parents| ==> first[i].None? && next[i].None?
    modifies first, next
    ensures ok <==> ParentsInRange(parents)
    ensures ok ==> ListsChildren(parents, first[..], next[..], |parents|)
  {
    for i := 0 to |parents|
      invariant ListsChildren(parents, first[..], next[..], i)
      invariant forall j :: 0 <= j < i && parents[j].Some? ==> parents[j].value < |parents|
    {
      match parents[i] {
        case None =>
          NotLinked(parents, first[..], next[..], i);
        case Some(p) =>
          if p >= |parents| {
            return false;
          }
          ListsGrow(parents, first[..], next[..], i);
          next[i] := first[p];
          first[p] := Some(i);
      }
    }
    return true;
  }

  // ----- the state of the walk -----

  /** `ins` and `outs` bound a node's interval, `order` lists the nodes as visited. */
  datatype Walk = Walk(
    parents: Parents, first: seq<Option<nat>>, next: seq<Option<nat>>,
    ins: seq<nat>, outs: seq<nat>, state: seq<Visit>, order: seq<nat>, stack: seq<ForestFrame>)
  {
    ghost predicate Shaped() {
      && |ins| == |outs| == |state| == |parents|
      && ListsChildren(parents, first, next, |parents|)
    }

    ghost predicate Visited(i: nat) {
      i < |state| && !state[i].New?
    }

    ghost predicate IsDone(i: nat) {
      i < |state| && state[i].Done?
    }

    /** d's number lies in b's interval, which is still open above until b is done. */
    ghost predicate Below(b: nat, d: nat)
      requires |ins| == |outs| == |state| && b < |ins| && d < |ins|
    {
      ins[b] <= ins[d] && (state[b].Done? ==> ins[d] < outs[b])
    }
  }

  function TopFrame(stack: seq<ForestFrame>): ForestFrame
    requires stack != []
  {
    stack[|stack| - 1]
  }

  ghost predicate InOrder(w: Walk)
    requires w.Shaped()
  {
    && (forall k :: 0 <= k < |w.order| ==> w.Visited(w.order[k]) && w.ins[w.order[k]] == k)
    && (forall i: nat :: w.Visited(i) ==> w.ins[i] < |w.order| && w.order[w.ins[i]] == i)
  }

  /** The stack is a path from the root down. */
  ghost predicate StackDown(w: Walk)
    requires w.Shaped()
  {
    && (forall a :: 0 <= a < |w.stack| ==> w.stack[a].node < |w.state| && w.state[w.stack[a].node].Open?)
    && (forall a, b :: 0 <= a < b < |w.stack| ==> w.ins[w.stack[a].node] < w.ins[w.stack[b].node])
    && (forall a, b :: 0 <= a < b < |w.stack| && b == a + 1 ==> w.parents[w.stack[b].node] == Some(w.stack[a].node))
  }

  ghost predicate OnStack(w: Walk, i: nat) {
    exists a :: 0 <= a < |w.stack| && w.stack[a].node == i
  }

  /** The stack is a descending path and holds exactly the open nodes. */
  ghost predicate Path(w: Walk)
    requires w.Shaped()
  {
    StackDown(w) && forall i: nat :: i < |w.state| && w.state[i].Open? ==> OnStack(w, i)
  }

  /** Parents are visited before their children, and left only after them. */
  ghost predicate ParentsFirst(w: Walk)
    requires w.Shaped()
  {
    forall c :: 0 <= c < |w.parents| && w.parents[c].Some? ==>
      var p := w.parents[c].value;
      (w.Visited(c) ==> w.Visited(p) && w.ins[p] < w.ins[c]) && (w.IsDone(p) ==> w.Visited(c))
  }

  /** What is left on a frame's list are the children not yet visited. */
  ghost predicate FrameReady(w: Walk, f: ForestFrame)
    requires w.Shaped()
  {
    && (f.child.Some? ==> f.child.value < |w.parents|)
    && forall c: nat :: c < |w.parents| ==> OnList(w.next, f.child, c) == (w.parents[c] == Some(f.node) && !w.Visited(c))
  }

  ghost predicate FramesReady(w: Walk)
    requires w.Shaped()
  {
    forall a :: 0 <= a < |w.stack| ==> FrameReady(w, w.stack[a])
  }

  /** Among visited nodes the intervals say who is an ancestor of whom. */
  ghost predicate IntervalsRight(w: Walk)
    requires w.Shaped()
  {
    forall b: nat, d: nat :: w.Visited(b) && w.Visited(d) ==> w.Below(b, d) == Ancestor(w.parents, b, d)
  }

  ghost predicate DoneClosed(w: Walk)
    requires w.Shaped()
  {
    && (forall b: nat :: w.IsDone(b) ==> w.ins[b] < w.outs[b] <= |w.order|)
    && (forall b: nat, d: nat :: w.IsDone(b) && w.Visited(d) && w.Below(b, d) ==> w.IsDone(d))
  }

  ghost predicate Walking(w: Walk) {
    match w case Walk(_, _, _, _, _, _, _, _) =>
      w.Shaped() && InOrder(w) && Path(w) && ParentsFirst(w) && FramesReady(w) && IntervalsRight(w) && DoneClosed(w)
  }

  // ----- entering a node -----

  /** c is the next node to visit: a new root, or the next child of the top frame. */
  ghost predicate MayEnter(w: Walk, c: nat)
    requires w.Shaped()
  {
    && c < |w.parents| && !w.Visited(c)
    && if w.stack == [] then w.parents[c].None? else TopFrame(w.stack).child == Some(c) && w.parents[c] == Some(TopFrame(w.stack).node)
  }

  function MovedOn(w: Walk, c: nat): (r: seq<ForestFrame>)
    requires c < |w.next|
    ensures |r| == |w.stack|
    ensures forall a :: 0 <= a < |r| ==> r[a].node == w.stack[a].node
    ensures forall a :: 0 <= a < |r| - 1 ==> r[a] == w.stack[a]
  {
    if w.stack == [] then [] else w.stack[|w.stack| - 1 := ForestFrame(TopFrame(w.stack).node, w.next[c])]
  }

  function Enter(w: Walk, c: nat): Walk
    requires c < |w.ins| && c < |w.state| && c < |w.next| && c < |w.first|
  {
    w.(ins := w.ins[c := |w.order|], state := w.state[c := Open], order := w.order + [c],
       stack := MovedOn(w, c) + [ForestFrame(c, w.first[c])])
  }

  lemma EnterOrder(w: Walk, c: nat)
    requires w.Shaped() && MayEnter(w, c) && InOrder(w)
    ensures InOrder(Enter(w, c))
  {
  }

  lemma {:induction false} EnterDown(w: Walk, c: nat)
    requires w.Shaped() && MayEnter(w, c) && InOrder(w) && StackDown(w)
    ensures StackDown(Enter(w, c))
  {
    forall a | 0 <= a < |w.stack|
      ensures w.stack[a].node != c && w.ins[w.stack[a].node] < |w.order|
    {
      assert w.Visited(w.stack[a].node);
    }
  }

  lemma EnterPath(w: Walk, c: nat)
    requires w.Shaped() && MayEnter(w, c) && InOrder(w) && Path(w)
    ensures Path(Enter(w, c))
  {
    var w' := Enter(w, c);
    EnterDown(w, c);
    forall i: nat | i < |w'.state| && w'.state[i].Open?
      ensures OnStack(w', i)
    {
      if i == c {
        assert w'.stack[|w.stack|].node == c;
      } else {
        assert OnStack(w, i);
        var a :| 0 <= a < |w.stack| && w.stack[a].node == i;
        assert w'.stack[a].node == i;
      }
    }
  }

  lemma {:induction false} EnterParents(w: Walk, c: nat)
    requires w.Shaped() && MayEnter(w, c) && InOrder(w) && Path(w) && ParentsFirst(w)
    ensures ParentsFirst(Enter(w, c))
  {
    assert w.stack != [] ==> w.Visited(TopFrame(w.stack).node);
  }

  lemma EnterFrame(w: Walk, c: nat, a: nat)
    requires w.Shaped() && MayEnter(w, c) && Path(w) && FramesReady(w) && a < |w.stack|
    ensures FrameReady(Enter(w, c), MovedOn(w, c)[a])
  {
    var w', f := Enter(w, c), w.stack[a];
    assert FrameReady(w, f);
    forall x: nat | x < |w.parents|
      ensures OnList(w.next, MovedOn(w, c)[a].child, x) == (w.parents[x] == Some(f.node) && !w'.Visited(x))
    {
      assert OnList(w.next, f.child, x) == (w.parents[x] == Some(f.node) && !w.Visited(x));
      if a == |w.stack| - 1 {
        if OnList(w.next, w.next[c], x) {
          ListedBelow(w.next, w.next[c], x);
        }
      } else {
        assert w.ins[f.node] < w.ins[TopFrame(w.stack).node];
      }
    }
  }

  lemma NewFrame(w: Walk, c: nat)
    requires w.Shaped() && MayEnter(w, c) && Path(w) && ParentsFirst(w)
    ensures FrameReady(Enter(w, c), ForestFrame(c, w.first[c]))
  {
    var w' := Enter(w, c);
    assert w.parents[c] != Some(c) by {
      assert w.stack != [] ==> w.Visited(TopFrame(w.stack).node);
    }
    assert ListFor(w.parents, w.first, w.next, |w.parents|, c);
    forall x: nat | x < |w.parents|
      ensures OnList(w.next, w.first[c], x) == (w.parents[x] == Some(c) && !w'.Visited(x))
    {
      assert w.parents[x] == Some(c) ==> !w.Visited(x);
    }
  }

  lemma {:induction false} StackAncestors(w: Walk, a: nat, b: nat)
    requires w.Shaped() && Path(w) && a <= b < |w.stack|
    ensures Ancestor(w.parents, w.stack[a].node, w.stack[b].node)
    decreases b - a
  {
    if a == b {
      AncestorSelf(w.parents, w.stack[a].node);
    } else {
      StackAncestors(w, a, b - 1);
      AncestorStep(w.parents, w.stack[a].node, w.stack[b].node);
    }
  }

  /** A node is above the top of the stack exactly when it is open. */
  lemma AboveTop(w: Walk, b: nat)
    requires Walking(w) && w.stack != [] && w.Visited(b)
    ensures Ancestor(w.parents, b, TopFrame(w.stack).node) <==> w.state[b].Open?
  {
    var top := TopFrame(w.stack).node;
    assert w.Visited(top);
    assert w.Below(b, top) == Ancestor(w.parents, b, top);
    if w.state[b].Open? {
      assert OnStack(w, b);
      var a :| 0 <= a < |w.stack| && w.stack[a].node == b;
      StackAncestors(w, a, |w.stack| - 1);
    } else {
      assert w.IsDone(b) && !w.IsDone(top);
    }
  }

  /** The new node is below exactly the open nodes. */
  lemma EnterAbove(w: Walk, c: nat, b: nat)
    requires Walking(w) && MayEnter(w, c) && w.Visited(b)
    ensures Ancestor(w.parents, b, c) <==> w.state[b].Open?
  {
    AncestorStep(w.parents, b, c);
    if w.stack != [] {
      AboveTop(w, b);
    } else {
      assert w.state[b].Open? ==> OnStack(w, b);
    }
  }

  lemma {:induction false} VisitedUpwards(w: Walk, d: nat, k: nat)
    requires w.Shaped() && ParentsFirst(w) && w.Visited(d) && Up(w.parents, d, k).Some?
    ensures w.Visited(Up(w.parents, d, k).value)
  {
    if k > 0 {
      VisitedUpwards(w, d, k - 1);
    }
  }

  lemma NothingBelowNew(w: Walk, c: nat, d: nat)
    requires w.Shaped() && ParentsFirst(w) && !w.Visited(c) && w.Visited(d)
    ensures !Ancestor(w.parents, c, d)
  {
    forall k: nat
      ensures !IsUp(w.parents, c, d, k)
    {
      if Up(w.parents, d, k).Some? {
        VisitedUpwards(w, d, k);
      }
    }
  }

  lemma EnterIntervals(w: Walk, c: nat)
    requires Walking(w) && MayEnter(w, c)
    ensures IntervalsRight(Enter(w, c))
  {
    var w' := Enter(w, c);
    forall b: nat, d: nat | w'.Visited(b) && w'.Visited(d)
      ensures w'.Below(b, d) == Ancestor(w.parents, b, d)
    {
      if b == c && d == c {
        AncestorSelf(w.parents, c);
      } else if d == c {
        EnterAbove(w, c, b);
      } else if b == c {
        NothingBelowNew(w, c, d);
      } else {
        assert w.Below(b, d) == Ancestor(w.parents, b, d);
      }
    }
  }

  lemma EnterDone(w: Walk, c: nat)
    requires w.Shaped() && MayEnter(w, c) && InOrder(w) && DoneClosed(w)
    ensures DoneClosed(Enter(w, c))
  {
    var w' := Enter(w, c);
    forall b: nat, d: nat | w'.IsDone(b) && w'.Visited(d) && w'.Below(b, d)
      ensures w'.IsDone(d)
    {
      assert w.IsDone(b);
      if d != c {
        assert w.Below(b, d);
      }
    }
  }

  lemma {:induction false} Entered(w: Walk, c: nat)
    requires Walking(w) && MayEnter(w, c)
    ensures Walking(Enter(w, c))
  {
    var w' := Enter(w, c);
    EnterOrder(w, c);
    EnterPath(w, c);
    EnterParents(w, c);
    EnterIntervals(w, c);
    EnterDone(w, c);
    NewFrame(w, c);
    forall a | 0 <= a < |w'.stack|
      ensures FrameReady(w', w'.stack[a])
    {
      if a < |w.stack| {
        EnterFrame(w, c, a);
      }
    }
  }

  /** A child on the top list has not been visited. */
  lemma NextChild(w: Walk)
    requires Walking(w) && w.stack != [] && TopFrame(w.stack).child.Some?
    ensures MayEnter(w, TopFrame(w.stack).child.value)
  {
    var f := TopFrame(w.stack);
    assert FrameReady(w, f);
    assert OnList(w.next, f.child, f.child.value);
  }

  // ----- leaving a node -----

  function Leave(w: Walk): Walk
    requires w.stack != [] && TopFrame(w.stack).node < |w.outs| && TopFrame(w.stack).node < |w.state|
  {
    var i := TopFrame(w.stack).node;
    w.(outs := w.outs[i := |w.order|], state := w.state[i := Done], stack := w.stack[..|w.stack| - 1])
  }

  lemma LeavePath(w: Walk)
    requires w.Shaped() && InOrder(w) && Path(w) && w.stack != []
    ensures InOrder(Leave(w)) && Path(Leave(w))
  {
    var w' := Leave(w);
    forall i: nat | i < |w'.state| && w'.state[i].Open?
      ensures OnStack(w', i)
    {
      assert OnStack(w, i);
      var a :| 0 <= a < |w.stack| && w.stack[a].node == i;
      assert w'.stack[a].node == i;
    }
  }

  lemma LeaveParents(w: Walk)
    requires w.Shaped() && Path(w) && ParentsFirst(w) && FramesReady(w) && w.stack != [] && TopFrame(w.stack).child.None?
    ensures ParentsFirst(Leave(w))
  {
    var f := TopFrame(w.stack);
    assert FrameReady(w, f);
    forall c: nat | c < |w.parents| && w.parents[c] == Some(f.node)
      ensures w.Visited(c)
    {
      assert !OnList(w.next, f.child, c);
    }
  }

  lemma LeaveFrames(w: Walk)
    requires w.Shaped() && Path(w) && FramesReady(w) && w.stack != []
    ensures FramesReady(Leave(w))
  {
    forall a | 0 <= a < |w.stack| - 1
      ensures FrameReady(Leave(w), w.stack[a])
    {
      assert FrameReady(w, w.stack[a]);
      assert forall c: nat :: c < |w.parents| ==> Leave(w).Visited(c) == w.Visited(c);
    }
  }

  lemma LeaveIntervals(w: Walk)
    requires w.Shaped() && InOrder(w) && Path(w) && IntervalsRight(w) && w.stack != []
    ensures IntervalsRight(Leave(w))
  {
    forall b: nat, d: nat | Leave(w).Visited(b) && Leave(w).Visited(d)
      ensures Leave(w).Below(b, d) == Ancestor(w.parents, b, d)
    {
      assert w.Visited(b) && w.Visited(d);
      assert w.Below(b, d) == Ancestor(w.parents, b, d);
    }
  }

  lemma LeaveDone(w: Walk)
    requires w.Shaped() && InOrder(w) && Path(w) && DoneClosed(w) && w.stack != []
    ensures DoneClosed(Leave(w))
  {
    var w', i := Leave(w), TopFrame(w.stack).node;
    assert w.Visited(i);
    forall b: nat, d: nat | w'.IsDone(b) && w'.Visited(d) && w'.Below(b, d)
      ensures w'.IsDone(d)
    {
      assert w.Visited(d);
      if b == i {
        NothingOpenAbove(w, d);
      } else {
        assert w.IsDone(b) && w.Below(b, d);
      }
    }
  }

  lemma NothingOpenAbove(w: Walk, d: nat)
    requires w.Shaped() && Path(w) && w.stack != [] && w.Visited(d) && w.ins[TopFrame(w.stack).node] <= w.ins[d]
    ensures w.state[d].Done? || d == TopFrame(w.stack).node
  {
    if w.state[d].Open? {
      assert OnStack(w, d);
      var a :| 0 <= a < |w.stack| && w.stack[a].node == d;
    }
  }

  lemma Left(w: Walk)
    requires Walking(w) && w.stack != [] && TopFrame(w.stack).child.None?
    ensures Walking(Leave(w))
  {
    LeavePath(w);
    LeaveParents(w);
    LeaveFrames(w);
    LeaveIntervals(w);
    LeaveDone(w);
  }

  // ----- what a finished walk means -----

  ghost predicate AllVisited(w: Walk) {
    forall i: nat :: i < |w.state| ==> w.Visited(i)
  }

  ghost predicate RootsVisited(w: Walk, n: nat)
    requires w.Shaped()
  {
    forall i: nat :: i < n && i < |w.parents| && w.parents[i].None? ==> w.Visited(i)
  }

  /** With every root visited, a ranked node cannot have been missed. */
  lemma {:induction false} RankedVisited(w: Walk, rank: seq<nat>, i: nat)
    requires Walking(w) && w.stack == [] && RootsVisited(w, |w.parents|)
    requires RankedParents(w.parents, rank) && i < |w.parents|
    ensures w.Visited(i)
    decreases rank[i]
  {
    if w.parents[i].Some? {
      var p := w.parents[i].value;
      assert ParentBelow(w.parents, rank, i);
      RankedVisited(w, rank, p);
      assert w.state[p].Open? ==> OnStack(w, p);
      assert w.IsDone(p);
    }
  }

  lemma VisitedIffForest(w: Walk)
    requires Walking(w) && w.stack == [] && RootsVisited(w, |w.parents|) && ParentsInRange(w.parents)
    ensures AllVisited(w) <==> Forest(w.parents)
  {
    if AllVisited(w) {
      forall i | 0 <= i < |w.parents| && w.parents[i].Some?
        ensures ParentBelow(w.parents, w.ins, i)
      {
        assert w.Visited(i);
      }
      assert RankedParents(w.parents, w.ins);
    }
    if Forest(w.parents) {
      var rank :| RankedParents(w.parents, rank);
      forall i: nat | i < |w.state|
        ensures w.Visited(i)
      {
        RankedVisited(w, rank, i);
      }
    }
  }

  /** A numbering of the nodes and the intervals below them. */
  datatype Numbering = Numbering(ins: seq<nat>, outs: seq<nat>, order: seq<nat>)

  ghost predicate Permutes(order: seq<nat>, ins: seq<nat>) {
    && |order| == |ins|
    && (forall k :: 0 <= k < |order| ==> order[k] < |ins| && ins[order[k]] == k)
    && (forall i :: 0 <= i < |ins| ==> ins[i] < |order| && order[ins[i]] == i)
  }

  /** b's interval holds d's number. */
  predicate InInterval(n: Numbering, b: nat, d: nat)
    requires |n.ins| == |n.outs| && b < |n.ins| && d < |n.ins|
  {
    n.ins[b] <= n.ins[d] < n.outs[b]
  }

  ghost predicate Numbers(parents: Parents, n: Numbering) {
    && |n.ins| == |n.outs| == |parents|
    && Permutes(n.order, n.ins)
    && (forall i :: 0 <= i < |parents| && parents[i].Some? ==> parents[i].value < |parents| && n.ins[parents[i].value] < n.ins[i])
    && (forall b: nat, d: nat :: b < |parents| && d < |parents| ==> InInterval(n, b, d) == Ancestor(parents, b, d))
  }

  lemma OrderCounts(order: seq<nat>, ins: seq<nat>)
    requires forall k :: 0 <= k < |order| ==> order[k] < |ins| && ins[order[k]] == k
    requires forall i :: 0 <= i < |ins| ==> ins[i] < |order| && order[ins[i]] == i
    ensures |order| == |ins|
  {
    Pigeonhole(order, |ins|);
    Pigeonhole(ins, |order|);
  }

  lemma FinishedNumbers(w: Walk)
    requires Walking(w) && w.stack == [] && AllVisited(w)
    ensures Numbers(w.parents, Numbering(w.ins, w.outs, w.order))
  {
    OrderCounts(w.order, w.ins);
    forall b: nat, d: nat | b < |w.parents| && d < |w.parents|
      ensures InInterval(Numbering(w.ins, w.outs, w.order), b, d) == Ancestor(w.parents, b, d)
    {
      assert w.Visited(b) && w.Visited(d);
      assert w.Below(b, d) == Ancestor(w.parents, b, d);
      assert w.state[b].Open? ==> OnStack(w, b);
    }
    forall i | 0 <= i < |w.parents| && w.parents[i].Some?
      ensures w.parents[i].value < |w.parents| && w.ins[w.parents[i].value] < w.ins[i]
    {
      assert w.Visited(i);
    }
  }

  // ----- the walk itself -----

  function Unvisited(state: seq<Visit>): set<nat> {
    set i: nat | i < |state| && state[i].New?
  }

  lemma FewerUnvisited(state: seq<Visit>, c: nat)
    requires c < |state| && state[c].New?
    ensures |Unvisited(state[c := Open])| < |Unvisited(state)|
  {
    assert Unvisited(state[c := Open]) == Unvisited(state) - {c};
  }

  class ForestWalk {
    const parents: Parents
    const first: array<Option<nat>>
    const next: array<Option<nat>>
    const ins: array<nat>
    const outs: array<nat>
    const state: array<Visit>
    var order: seq<nat>
    var stack: seq<ForestFrame>

    constructor (parents: Parents)
      ensures this.parents == parents && Valid() && Started()
      ensures fresh(first) && fresh(next) && fresh(ins) && fresh(outs) && fresh(state)
    {
      this.parents := parents;
      first := new Option<nat>[|parents|](_ => None);
      next := new Option<nat>[|parents|](_ => None);
      ins := new nat[|parents|](_ => 0);
      outs := new nat[|parents|](_ => 0);
      state := new Visit[|parents|](_ => New);
      order, stack := [], [];
    }

    ghost predicate Valid()
      reads this
    {
      && first.Length == next.Length == ins.Length == outs.Length == state.Length == |parents|
      && first != next && ins != outs
    }

    ghost predicate Started()
      reads this, first, next, state
    {
      && order == [] && stack == []
      && (forall i :: 0 <= i < first.Length ==> first[i].None?)
      && (forall i :: 0 <= i < next.Length ==> next[i].None?)
      && (forall i :: 0 <= i < state.Length ==> state[i].New?)
    }

    ghost function Now(): Walk
      reads this, first, next, ins, outs, state
    {
      Walk(parents, first[..], next[..], ins[..], outs[..], state[..], order, stack)
    }

    /** Numbers a node that has not been visited. */
    method EnterNode(c: nat)
      requires Valid() && Walking(Now()) && MayEnter(Now(), c)
      modifies this, ins, state
      ensures Valid() && Walking(Now()) && Now() == old(Enter(Now(), c))
      ensures |Unvisited(state[..])| < old(|Unvisited(state[..])|)
    {
      Entered(Now(), c);
      FewerUnvisited(state[..], c);
      if stack != [] {
        stack := stack[|stack| - 1 := ForestFrame(TopFrame(stack).node, next[c])];
      }
      state[c] := Open;
      ins[c] := |order|;
      order := order + [c];
      stack := stack + [ForestFrame(c, first[c])];
    }

    method LeaveNode()
      requires Valid() && Walking(Now()) && stack != [] && TopFrame(stack).child.None?
      modifies this, outs, state
      ensures Valid() && Walking(Now()) && Now() == old(Leave(Now()))
      ensures Unvisited(state[..]) == old(Unvisited(state[..]))
    {
      Left(Now());
      var i := TopFrame(stack).node;
      outs[i] := |order|;
      state[i] := Done;
      stack := stack[..|stack| - 1];
      assert forall k: nat :: k < state.Length ==> state[k].New? == old(state[k]).New?;
    }

    /** One turn of the walk. A child is on one list only, so it is always new. */
    method Step()
      requires Valid() && Walking(Now()) && stack != []
      modifies this, ins, outs, state
      ensures Valid() && Walking(Now()) && Later(old(Now()), Now())
      ensures |Unvisited(state[..])| < old(|Unvisited(state[..])|)
              || (|Unvisited(state[..])| == old(|Unvisited(state[..])|) && |stack| < old(|stack|))
    {
      match TopFrame(stack).child {
        case None =>
          LeaveNode();
        case Some(child) =>
          NextChild(Now());
          EnterNode(child);
      }
    }

    /** Walks the tree below one root. */
    method Visit(root: nat)
      requires Valid() && Walking(Now()) && stack == [] && MayEnter(Now(), root)
      modifies this, ins, outs, state
      ensures Valid() && Walking(Now()) && stack == []
      ensures Now().Visited(root) && Later(old(Now()), Now())
    {
      EnterNode(root);
      ghost var entered := Now();
      while stack != []
        invariant Valid() && Walking(Now()) && Later(entered, Now())
        decreases |Unvisited(state[..])|, |stack|
      {
        Step();
      }
    }

    method VisitRoots()
      requires Valid() && Walking(Now()) && stack == []
      modifies this, ins, outs, state
      ensures Valid() && Walking(Now()) && stack == []
      ensures RootsVisited(Now(), |parents|)
    {
      for i := 0 to |parents|
        invariant Valid() && Walking(Now()) && stack == []
        invariant RootsVisited(Now(), i)
      {
        if parents[i].None? && state[i].New? {
          Visit(i);
        }
      }
    }

    /** A node that no root reaches means that the parents are no forest. */
    method Finish() returns (r: Option<Numbering>)
      requires Valid() && Walking(Now()) && stack == []
      requires RootsVisited(Now(), |parents|) && ParentsInRange(parents)
      ensures r.Some? <==> Forest(parents)
      ensures r.Some? ==> Numbers(parents, r.value)
    {
      VisitedIffForest(Now());
      if exists i :: 0 <= i < |parents| && state[i].New? {
        ghost var i :| 0 <= i < |parents| && state[i].New?;
        assert !Now().Visited(i);
        return None;
      }
      FinishedNumbers(Now());
      return Some(Numbering(ins[..], outs[..], order));
    }
  }

  /** The walk only visits more. */
  ghost predicate Later(w: Walk, w': Walk) {
    match w case Walk(parents, first, next, _, _, _, _, _) =>
      && w'.parents == parents && w'.first == first && w'.next == next
      && forall i: nat :: w.Visited(i) ==> w'.Visited(i)
  }

  /** Numbers a parent map, or reports that it is no forest. */
  method BuildDerivationForest(parents: Parents) returns (r: Option<Numbering>)
    ensures r.Some? <==> Forest(parents)
    ensures r.Some? ==> Numbers(parents, r.value)
  {
    var walk := new ForestWalk(parents);
    var ok := LinkChildren(parents, walk.first, walk.next);
    if !ok {
      NotInRange(parents);
      return None;
    }
    walk.VisitRoots();
    r := walk.Finish();
  }

  lemma NotInRange(parents: Parents)
    requires !ParentsInRange(parents)
    ensures !Forest(parents)
  {
    var i :| 0 <= i < |parents| && parents[i].Some? && parents[i].value >= |parents|;
    forall rank: seq<nat>
      ensures !RankedParents(parents, rank)
    {
      assert |rank| == |parents| ==> !ParentBelow(parents, rank, i);
    }
  }
}
