/** Whether a simple type has a list type among its union members, at any depth,
    remembered across queries. A node whose answer rests on a node still being checked
    is forgotten again. */
module ListReachabilities {
  import opened Schema
  import opened Ancestry
  import opened TypeGraphs

  datatype ReachState = Unchecked | Checking | Checked

  datatype ReachFrame = ReachFrame(id: nat, next: nat, unstable: bool)

  type Simples = seq<SimpleType>

  // ----- reaching a list -----

  predicate IsList(types: Simples, v: nat) {
    v < |types| && types[v].variety.List?
  }

  /** m is a member of the union v that exists. */
  predicate UnionStep(types: Simples, v: nat, m: nat) {
    v < |types| && types[v].variety.Union? && m in types[v].members && m < |types|
  }

  ghost predicate UnionPath(types: Simples, path: seq<nat>) {
    path != [] && forall i, j :: 0 <= i < j < |path| && j == i + 1 ==> UnionStep(types, path[i], path[j])
  }

  ghost predicate ListPath(types: Simples, v: nat, path: seq<nat>) {
    UnionPath(types, path) && path[0] == v && IsList(types, path[|path| - 1])
  }

  ghost predicate ReachesList(types: Simples, v: nat) {
    exists path: seq<nat> :: ListPath(types, v, path)
  }

  lemma ListReaches(types: Simples, v: nat)
    requires IsList(types, v)
    ensures ReachesList(types, v)
  {
    assert ListPath(types, v, [v]);
  }

  lemma StepReaches(types: Simples, v: nat, m: nat)
    requires UnionStep(types, v, m) && ReachesList(types, m)
    ensures ReachesList(types, v)
  {
    var path: seq<nat> :| ListPath(types, m, path);
    assert ListPath(types, v, [v] + path);
  }

  /** From a set of nodes that are no lists, and whose members are in it or reach none,
      no list is reached. */
  lemma {:induction false} ClosedReachesNone(types: Simples, closed: set<nat>, path: seq<nat>)
    requires forall v :: v in closed ==> !IsList(types, v)
    requires forall v, m :: v in closed && UnionStep(types, v, m) ==> m in closed || !ReachesList(types, m)
    requires UnionPath(types, path) && path[0] in closed
    ensures !IsList(types, path[|path| - 1])
    decreases |path|
  {
    if |path| > 1 {
      var rest := path[1..];
      assert UnionStep(types, path[0], path[1]);
      if path[1] in closed {
        ClosedReachesNone(types, closed, rest);
      } else if IsList(types, path[|path| - 1]) {
        assert ListPath(types, path[1], rest);
      }
    }
  }

  lemma NoneFrom(types: Simples, closed: set<nat>, v: nat)
    requires forall u :: u in closed ==> !IsList(types, u)
    requires forall u, m :: u in closed && UnionStep(types, u, m) ==> m in closed || !ReachesList(types, m)
    requires v in closed
    ensures !ReachesList(types, v)
  {
    forall path: seq<nat> | UnionPath(types, path) && path[0] == v
      ensures !IsList(types, path[|path| - 1])
    {
      ClosedReachesNone(types, closed, path);
    }
  }

  /** No list here and none from any member. */
  lemma NoneFromMembers(types: Simples, v: nat)
    requires !IsList(types, v) && forall m :: UnionStep(types, v, m) ==> !ReachesList(types, m)
    ensures !ReachesList(types, v)
  {
    NoneFrom(types, {v}, v);
  }

  // ----- what is remembered -----

  /** Every checked node is remembered right; nothing is in progress. */
  ghost predicate Remembered(types: Simples, state: seq<ReachState>, reaches: seq<bool>) {
    && |state| == |reaches| <= |types|
    && (forall i :: 0 <= i < |state| && state[i].Checked? ==> (reaches[i] <==> ReachesList(types, i)))
    && (forall i :: 0 <= i < |state| ==> !state[i].Checking?)
    && (forall i :: 0 <= i < |state| && !state[i].Checked? ==> !reaches[i])
  }

  // ----- the search in progress -----

  datatype ReachSearch = ReachSearch(
    types: Simples, state: seq<ReachState>, reaches: seq<bool>, stack: seq<ReachFrame>, visited: set<nat>)

  function MembersOf(types: Simples, v: nat): seq<nat> {
    if v < |types| && types[v].variety.Union? then types[v].members else []
  }

  ghost predicate CheckedRight(s: ReachSearch) {
    && |s.state| == |s.reaches| == |s.types|
    && (forall i :: 0 <= i < |s.state| && s.state[i].Checked? ==> (s.reaches[i] <==> ReachesList(s.types, i)))
    && (forall i :: 0 <= i < |s.state| && !s.state[i].Checked? ==> !s.reaches[i])
  }

  ghost predicate OnReachStack(stack: seq<ReachFrame>, i: nat) {
    exists a :: 0 <= a < |stack| && stack[a].id == i
  }

  /** The stack is a path of members. */
  ghost predicate StackDown(s: ReachSearch)
    requires |s.state| == |s.types|
  {
    && (forall a :: 0 <= a < |s.stack| ==> s.stack[a].id < |s.types| && s.state[s.stack[a].id].Checking?)
    && (forall a, b :: 0 <= a < b < |s.stack| ==> s.stack[a].id != s.stack[b].id)
    && (forall a, b :: 0 <= a < b < |s.stack| && b == a + 1 ==> UnionStep(s.types, s.stack[a].id, s.stack[b].id))
  }

  /** The stack is a path of members and holds exactly the nodes being checked. */
  ghost predicate StackPath(s: ReachSearch)
    requires |s.state| == |s.types|
  {
    StackDown(s) && forall i: nat :: i < |s.state| && s.state[i].Checking? ==> OnReachStack(s.stack, i)
  }

  /** m is one of the first n members of v. */
  predicate EarlyMember(types: Simples, v: nat, n: nat, m: nat) {
    UnionStep(types, v, m) && m in MembersOf(types, v)[..if n < |MembersOf(types, v)| then n else |MembersOf(types, v)|]
  }

  /** A frame has looked at its first members; a stable one knows that they reach nothing,
      but for the one that is being checked. */
  ghost predicate FrameKnows(s: ReachSearch, f: ReachFrame, open: bool) {
    && f.id in s.visited
    && (forall m :: EarlyMember(s.types, f.id, f.next, m) ==> m in s.visited || !ReachesList(s.types, m))
    && (open ==> f.next > 0 && !IsList(s.types, f.id))
    && (!f.unstable ==> forall m :: EarlyMember(s.types, f.id, if open then f.next - 1 else f.next, m) ==> !ReachesList(s.types, m))
  }

  ghost predicate FramesKnow(s: ReachSearch) {
    forall a :: 0 <= a < |s.stack| ==> FrameKnows(s, s.stack[a], a < |s.stack| - 1)
  }

  /** The open member of a frame is the next frame's node. */
  ghost predicate FramesLinked(s: ReachSearch) {
    forall a, b :: 0 <= a < b < |s.stack| && b == a + 1 ==> FollowsMember(s.types, s.stack[a], s.stack[b])
  }

  ghost predicate FollowsMember(types: Simples, f: ReachFrame, g: ReachFrame) {
    0 < f.next <= |MembersOf(types, f.id)| && MembersOf(types, f.id)[f.next - 1] == g.id
  }

  /** Visited nodes are on the stack, or are no lists with all members accounted for. */
  ghost predicate VisitedRight(s: ReachSearch) {
    forall v :: v in s.visited ==> v < |s.types| && (OnReachStack(s.stack, v) || Accounted(s, v))
  }

  ghost predicate Accounted(s: ReachSearch, v: nat) {
    !IsList(s.types, v) && forall m :: UnionStep(s.types, v, m) ==> m in s.visited || !ReachesList(s.types, m)
  }

  ghost predicate InProgress(s: ReachSearch) {
    match s case ReachSearch(_, _, _, _, _) =>
      CheckedRight(s) && StackPath(s) && FramesKnow(s) && FramesLinked(s) && VisitedRight(s)
  }

  function TopReach(s: ReachSearch): ReachFrame
    requires s.stack != []
  {
    s.stack[|s.stack| - 1]
  }

  function BelowTop(s: ReachSearch): seq<ReachFrame>
    requires s.stack != []
  {
    s.stack[..|s.stack| - 1]
  }

  // ----- the moves of the search -----

  function Bump(f: ReachFrame, unstable: bool): ReachFrame {
    f.(next := f.next + 1, unstable := f.unstable || unstable)
  }

  lemma EarlyGrows(types: Simples, v: nat, n: nat, m: nat)
    requires n < |MembersOf(types, v)|
    ensures EarlyMember(types, v, n + 1, m) <==> EarlyMember(types, v, n, m) || (UnionStep(types, v, m) && m == MembersOf(types, v)[n])
  {
    assert MembersOf(types, v)[..n + 1] == MembersOf(types, v)[..n] + [MembersOf(types, v)[n]];
  }

  lemma EarlyAll(types: Simples, v: nat, m: nat)
    ensures EarlyMember(types, v, |MembersOf(types, v)|, m) <==> UnionStep(types, v, m)
  {
    assert MembersOf(types, v)[..|MembersOf(types, v)|] == MembersOf(types, v);
  }

  /** The state after looking at a member that needs no search. */
  function SkippedMember(s: ReachSearch, unstable: bool): ReachSearch
    requires s.stack != []
  {
    s.(stack := BelowTop(s) + [Bump(TopReach(s), unstable)])
  }

  lemma SkipFrames(s: ReachSearch, unstable: bool)
    requires InProgress(s) && s.stack != [] && TopReach(s).next < |MembersOf(s.types, TopReach(s).id)|
    requires var m := MembersOf(s.types, TopReach(s).id)[TopReach(s).next];
             UnionStep(s.types, TopReach(s).id, m) ==>
               (!ReachesList(s.types, m) || (unstable && m in s.visited))
    ensures FramesKnow(SkippedMember(s, unstable))
  {
    var s', f := SkippedMember(s, unstable), TopReach(s);
    forall a | 0 <= a < |s'.stack|
      ensures FrameKnows(s', s'.stack[a], a < |s'.stack| - 1)
    {
      assert FrameKnows(s, s.stack[a], a < |s.stack| - 1);
      if a == |s.stack| - 1 {
        forall m: nat
          ensures EarlyMember(s.types, f.id, f.next + 1, m) <==>
                  EarlyMember(s.types, f.id, f.next, m)
                  || (UnionStep(s.types, f.id, m) && m == MembersOf(s.types, f.id)[f.next])
        {
          EarlyGrows(s.types, f.id, f.next, m);
        }
      }
    }
  }

  lemma SameStack(s: ReachSearch, stack': seq<ReachFrame>, i: nat)
    requires |stack'| == |s.stack| && forall a :: 0 <= a < |stack'| ==> stack'[a].id == s.stack[a].id
    ensures OnReachStack(stack', i) <==> OnReachStack(s.stack, i)
  {
    if OnReachStack(stack', i) {
      var a :| 0 <= a < |stack'| && stack'[a].id == i;
      assert s.stack[a].id == i;
    }
    if OnReachStack(s.stack, i) {
      var a :| 0 <= a < |s.stack| && s.stack[a].id == i;
      assert stack'[a].id == i;
    }
  }

  lemma SkipDown(s: ReachSearch, unstable: bool)
    requires |s.state| == |s.types| && StackDown(s) && s.stack != []
    ensures StackDown(SkippedMember(s, unstable))
    ensures forall i: nat :: OnReachStack(SkippedMember(s, unstable).stack, i) <==> OnReachStack(s.stack, i)
  {
    var s' := SkippedMember(s, unstable);
    assert forall a :: 0 <= a < |s'.stack| ==> s'.stack[a].id == s.stack[a].id;
    forall i: nat
      ensures OnReachStack(s'.stack, i) <==> OnReachStack(s.stack, i)
    {
      SameStack(s, s'.stack, i);
    }
  }

  lemma SkipLinks(s: ReachSearch, unstable: bool)
    requires FramesLinked(s) && s.stack != []
    ensures FramesLinked(SkippedMember(s, unstable))
  {
    var s' := SkippedMember(s, unstable);
    forall a, b | 0 <= a < b < |s'.stack| && b == a + 1
      ensures FollowsMember(s.types, s'.stack[a], s'.stack[b])
    {
      assert FollowsMember(s.types, s.stack[a], s.stack[b]);
    }
  }

  lemma Skipped(s: ReachSearch, unstable: bool)
    requires InProgress(s) && s.stack != [] && TopReach(s).next < |MembersOf(s.types, TopReach(s).id)|
    requires var m := MembersOf(s.types, TopReach(s).id)[TopReach(s).next];
             UnionStep(s.types, TopReach(s).id, m) ==>
               (!ReachesList(s.types, m) || (unstable && m in s.visited))
    ensures InProgress(SkippedMember(s, unstable))
  {
    var s' := SkippedMember(s, unstable);
    SkipFrames(s, unstable);
    SkipDown(s, unstable);
    SkipLinks(s, unstable);
    forall v | v in s.visited && !OnReachStack(s'.stack, v)
      ensures Accounted(s', v)
    {
      assert Accounted(s, v);
    }
  }

  /** The state after a member is put on the stack. */
  function PushedMember(s: ReachSearch, m: nat): ReachSearch
    requires s.stack != [] && m < |s.state|
  {
    s.(state := s.state[m := Checking], stack := BelowTop(s) + [Bump(TopReach(s), false), ReachFrame(m, 0, false)],
       visited := s.visited + {m})
  }

  ghost predicate MayPush(s: ReachSearch, m: nat) {
    && InProgress(s) && s.stack != [] && TopReach(s).next < |MembersOf(s.types, TopReach(s).id)|
    && m == MembersOf(s.types, TopReach(s).id)[TopReach(s).next]
    && UnionStep(s.types, TopReach(s).id, m) && s.state[m].Unchecked?
  }

  lemma PushMembership(s: ReachSearch, m: nat, i: nat)
    requires s.stack != [] && m < |s.state|
    ensures OnReachStack(PushedMember(s, m).stack, i) <==> OnReachStack(s.stack, i) || i == m
  {
    var s' := PushedMember(s, m);
    var last := |s.stack|;
    SameStack(s, s'.stack[..last], i);
    if OnReachStack(s'.stack, i) {
      var a :| 0 <= a < |s'.stack| && s'.stack[a].id == i;
      assert a < last ==> s'.stack[..last][a].id == i;
    }
    if OnReachStack(s'.stack[..last], i) {
      var a :| 0 <= a < last && s'.stack[..last][a].id == i;
      assert s'.stack[a].id == i;
    }
    assert s'.stack[last].id == m;
  }

  lemma {:induction false} PushDown(s: ReachSearch, m: nat)
    requires MayPush(s, m)
    ensures StackDown(PushedMember(s, m))
  {
    var s' := PushedMember(s, m);
    assert forall a :: 0 <= a < |s.stack| ==> s'.stack[a].id == s.stack[a].id && s.stack[a].id != m;
  }

  lemma PushPath(s: ReachSearch, m: nat)
    requires MayPush(s, m)
    ensures StackPath(PushedMember(s, m))
    ensures forall i: nat :: OnReachStack(PushedMember(s, m).stack, i) <==> OnReachStack(s.stack, i) || i == m
  {
    PushDown(s, m);
    forall i: nat
      ensures OnReachStack(PushedMember(s, m).stack, i) <==> OnReachStack(s.stack, i) || i == m
    {
      PushMembership(s, m, i);
    }
  }

  lemma PushFrames(s: ReachSearch, m: nat)
    requires MayPush(s, m)
    ensures FramesKnow(PushedMember(s, m))
  {
    var s', f := PushedMember(s, m), TopReach(s);
    assert EarlyMember(s.types, m, 0, m) == false;
    forall a | 0 <= a < |s'.stack|
      ensures FrameKnows(s', s'.stack[a], a < |s'.stack| - 1)
    {
      if a < |s.stack| {
        assert FrameKnows(s, s.stack[a], a < |s.stack| - 1);
      }
      if a == |s.stack| - 1 {
        forall k: nat
          ensures EarlyMember(s.types, f.id, f.next + 1, k) <==>
                  EarlyMember(s.types, f.id, f.next, k) || (UnionStep(s.types, f.id, k) && k == m)
        {
          EarlyGrows(s.types, f.id, f.next, k);
        }
      }
    }
  }

  lemma PushVisited(s: ReachSearch, m: nat)
    requires MayPush(s, m)
    ensures VisitedRight(PushedMember(s, m))
  {
    var s' := PushedMember(s, m);
    PushPath(s, m);
    forall v | v in s'.visited && !OnReachStack(s'.stack, v)
      ensures Accounted(s', v)
    {
      assert Accounted(s, v);
    }
  }

  lemma {:induction false} PushLinks(s: ReachSearch, m: nat)
    requires MayPush(s, m)
    ensures CheckedRight(PushedMember(s, m)) && FramesLinked(PushedMember(s, m))
  {
    PushPath(s, m);
  }

  lemma Pushed(s: ReachSearch, m: nat)
    requires MayPush(s, m)
    ensures InProgress(PushedMember(s, m))
  {
    PushPath(s, m);
    PushLinks(s, m);
    PushFrames(s, m);
    PushVisited(s, m);
  }

  /** The state after a node has looked at all its members. */
  function PoppedNode(s: ReachSearch): ReachSearch
    requires s.stack != [] && TopReach(s).id < |s.state|
  {
    var f := TopReach(s);
    s.(state := s.state[f.id := if f.unstable then Unchecked else Checked],
       stack := if f.unstable then Tainted(BelowTop(s)) else BelowTop(s))
  }

  /** An unstable node makes the node below it unstable. */
  function Tainted(stack: seq<ReachFrame>): (r: seq<ReachFrame>)
    ensures |r| == |stack|
    ensures forall a :: 0 <= a < |r| ==> r[a].id == stack[a].id && r[a].next == stack[a].next
    ensures forall a :: 0 <= a < |r| - 1 ==> r[a] == stack[a]
    ensures r != [] ==> r[|r| - 1].unstable
  {
    if stack == [] then [] else stack[|stack| - 1 := stack[|stack| - 1].(unstable := true)]
  }

  ghost predicate MayPop(s: ReachSearch) {
    InProgress(s) && s.stack != [] && !IsList(s.types, TopReach(s).id) && TopReach(s).next >= |MembersOf(s.types, TopReach(s).id)|
  }

  lemma AllEarly(s: ReachSearch, m: nat)
    requires MayPop(s) && UnionStep(s.types, TopReach(s).id, m)
    ensures EarlyMember(s.types, TopReach(s).id, TopReach(s).next, m)
  {
    EarlyAll(s.types, TopReach(s).id, m);
  }

  lemma StableIsRight(s: ReachSearch)
    requires MayPop(s) && !TopReach(s).unstable
    ensures !ReachesList(s.types, TopReach(s).id)
  {
    var f := TopReach(s);
    assert FrameKnows(s, f, false);
    forall m | UnionStep(s.types, f.id, m)
      ensures !ReachesList(s.types, m)
    {
      AllEarly(s, m);
    }
    NoneFromMembers(s.types, f.id);
  }

  lemma PopMembership(s: ReachSearch, i: nat)
    requires s.stack != [] && TopReach(s).id < |s.state|
    ensures OnReachStack(s.stack, i) <==> OnReachStack(PoppedNode(s).stack, i) || i == TopReach(s).id
  {
    var s' := PoppedNode(s);
    if OnReachStack(s.stack, i) {
      var a :| 0 <= a < |s.stack| && s.stack[a].id == i;
      assert a < |s'.stack| ==> s'.stack[a].id == i;
    }
    if OnReachStack(s'.stack, i) {
      var a :| 0 <= a < |s'.stack| && s'.stack[a].id == i;
      assert s.stack[a].id == i;
    }
    assert s.stack[|s.stack| - 1].id == TopReach(s).id;
  }

  lemma PopChecked(s: ReachSearch)
    requires MayPop(s)
    ensures CheckedRight(PoppedNode(s))
  {
    if !TopReach(s).unstable {
      StableIsRight(s);
    }
  }

  lemma {:induction false} PopDown(s: ReachSearch)
    requires MayPop(s)
    ensures StackDown(PoppedNode(s))
  {
    var s' := PoppedNode(s);
    assert forall a :: 0 <= a < |s'.stack| ==> s'.stack[a].id == s.stack[a].id && s.stack[a].id != TopReach(s).id;
  }

  lemma PopPath(s: ReachSearch)
    requires MayPop(s)
    ensures StackPath(PoppedNode(s))
    ensures forall i: nat :: OnReachStack(s.stack, i) <==> OnReachStack(PoppedNode(s).stack, i) || i == TopReach(s).id
  {
    PopDown(s);
    forall i: nat
      ensures OnReachStack(s.stack, i) <==> OnReachStack(PoppedNode(s).stack, i) || i == TopReach(s).id
    {
      PopMembership(s, i);
    }
  }

  lemma PopFrame(s: ReachSearch, a: nat)
    requires MayPop(s) && a < |s.stack| - 1
    ensures FrameKnows(PoppedNode(s), PoppedNode(s).stack[a], a < |s.stack| - 2)
  {
    var s', f := PoppedNode(s), s.stack[a];
    assert FrameKnows(s, f, true);
    if a == |s.stack| - 2 && !s'.stack[a].unstable {
      StableIsRight(s);
      assert FollowsMember(s.types, f, TopReach(s));
      forall m: nat | EarlyMember(s.types, f.id, f.next, m)
        ensures !ReachesList(s.types, m)
      {
        EarlyGrows(s.types, f.id, f.next - 1, m);
      }
    }
  }

  lemma PopVisited(s: ReachSearch)
    requires MayPop(s)
    ensures VisitedRight(PoppedNode(s))
  {
    var s', f := PoppedNode(s), TopReach(s);
    PopPath(s);
    assert FrameKnows(s, f, false);
    forall v | v in s'.visited && !OnReachStack(s'.stack, v)
      ensures Accounted(s', v)
    {
      if v == f.id {
        forall m | UnionStep(s.types, v, m)
          ensures m in s.visited || !ReachesList(s.types, m)
        {
          AllEarly(s, m);
        }
      } else {
        assert Accounted(s, v);
      }
    }
  }

  lemma {:induction false} Popped(s: ReachSearch)
    requires MayPop(s)
    ensures InProgress(PoppedNode(s))
  {
    var s' := PoppedNode(s);
    PopChecked(s);
    PopPath(s);
    PopVisited(s);
    forall a | 0 <= a < |s'.stack|
      ensures FrameKnows(s', s'.stack[a], a < |s'.stack| - 1)
    {
      PopFrame(s, a);
    }
    forall a, b | 0 <= a < b < |s'.stack| && b == a + 1
      ensures FollowsMember(s.types, s'.stack[a], s'.stack[b])
    {
      assert FollowsMember(s.types, s.stack[a], s.stack[b]);
    }
  }

  // ----- what the answers mean -----

  /** A list above the stack is reached from every node on it. */
  lemma {:induction false} AllOnStackReach(s: ReachSearch, a: nat)
    requires InProgress(s) && a < |s.stack| && ReachesList(s.types, TopReach(s).id)
    ensures ReachesList(s.types, s.stack[a].id)
    decreases |s.stack| - a
  {
    if a < |s.stack| - 1 {
      AllOnStackReach(s, a + 1);
      StepReaches(s.types, s.stack[a].id, s.stack[a + 1].id);
    }
  }

  /** When the search ends without a list, nothing visited reaches one. */
  lemma NothingReached(s: ReachSearch, v: nat)
    requires InProgress(s) && s.stack == [] && v in s.visited
    ensures !ReachesList(s.types, v)
  {
    forall u | u in s.visited
      ensures Accounted(s, u)
    {
    }
    NoneFrom(s.types, s.visited, v);
  }

  // ----- why the search ends -----

  function MaxMembers(types: Simples): (r: nat)
    ensures forall v :: 0 <= v < |types| ==> |types[v].members| <= r
  {
    if types == [] then 0
    else
      var rest := MaxMembers(types[..|types| - 1]);
      var last := |types[|types| - 1].members|;
      assert forall v :: 0 <= v < |types| - 1 ==> types[v] == types[..|types| - 1][v];
      if last > rest then last else rest
  }

  function Pow(b: nat, k: nat): nat {
    if k == 0 then 1 else b * Pow(b, k - 1)
  }

  lemma PowPositive(b: nat, k: nat)
    requires b > 0
    ensures Pow(b, k) > 0
  {
    if k > 0 {
      PowPositive(b, k - 1);
    }
  }

  /** The turns a frame has left, its leaving included. */
  function Turns(types: Simples, f: ReachFrame): nat {
    if f.next <= |MembersOf(types, f.id)| then |MembersOf(types, f.id)| - f.next + 1 else 1
  }

  /** The stack read as a number: lower frames weigh more than all that can follow. */
  function StackNumber(types: Simples, stack: seq<ReachFrame>): nat {
    if stack == [] then 0
    else StackNumber(types, stack[..|stack| - 1]) * (MaxMembers(types) + 2) + Turns(types, stack[|stack| - 1])
  }

  function SearchLeft(types: Simples, stack: seq<ReachFrame>): nat {
    if |stack| > |types| then 0
    else StackNumber(types, stack) * Pow(MaxMembers(types) + 2, |types| - |stack|)
  }

  lemma {:induction false} SameTurns(types: Simples, a: seq<ReachFrame>, b: seq<ReachFrame>)
    requires |a| == |b| && forall i :: 0 <= i < |a| ==> a[i].id == b[i].id && a[i].next == b[i].next
    ensures StackNumber(types, a) == StackNumber(types, b)
  {
    if a != [] {
      SameTurns(types, a[..|a| - 1], b[..|b| - 1]);
    }
  }

  lemma Times(a: nat, b: nat, c: nat)
    requires a < b && c > 0
    ensures a * c < b * c
  {
  }

  lemma SkipEnds(s: ReachSearch, unstable: bool)
    requires s.stack != [] && |s.stack| <= |s.types| && TopReach(s).next < |MembersOf(s.types, TopReach(s).id)|
    ensures SearchLeft(s.types, SkippedMember(s, unstable).stack) < SearchLeft(s.types, s.stack)
  {
    var stack' := SkippedMember(s, unstable).stack;
    assert stack'[..|stack'| - 1] == BelowTop(s);
    PowPositive(MaxMembers(s.types) + 2, |s.types| - |s.stack|);
    Times(StackNumber(s.types, stack'), StackNumber(s.types, s.stack), Pow(MaxMembers(s.types) + 2, |s.types| - |s.stack|));
  }

  lemma NumbersCompare(h: nat, d: nat, e: nat, b: nat, p: nat)
    requires d > 0 && e < b && p > 0
    ensures ((h + (d - 1)) * b + e) * p < (h + d) * (b * p)
  {
    assert (h + d) * b == (h + (d - 1)) * b + b;
    Times((h + (d - 1)) * b + e, (h + d) * b, p);
    assert (h + d) * (b * p) == ((h + d) * b) * p;
  }

  lemma {:induction false} PushEnds(s: ReachSearch, m: nat)
    requires s.stack != [] && |s.stack| < |s.types| && TopReach(s).next < |MembersOf(s.types, TopReach(s).id)|
    requires m < |s.types| && m < |s.state|
    ensures SearchLeft(s.types, PushedMember(s, m).stack) < SearchLeft(s.types, s.stack)
  {
    var b := MaxMembers(s.types) + 2;
    var stack' := PushedMember(s, m).stack;
    var bumped := stack'[..|stack'| - 1];
    assert bumped == BelowTop(s) + [Bump(TopReach(s), false)];
    assert bumped[..|bumped| - 1] == BelowTop(s);
    var h, d := StackNumber(s.types, BelowTop(s)) * b, Turns(s.types, TopReach(s));
    var p := Pow(b, |s.types| - |stack'|);
    PowPositive(b, |s.types| - |stack'|);
    assert StackNumber(s.types, bumped) == h + (d - 1);
    NumbersCompare(h, d, Turns(s.types, ReachFrame(m, 0, false)), b, p);
    assert Pow(b, |s.types| - |s.stack|) == b * p;
  }

  lemma PopCompare(h: nat, d: nat, b: nat, p: nat)
    requires d > 0 && p > 0
    ensures h * (b * p) < (h * b + d) * p
  {
    assert h * (b * p) == (h * b) * p;
    Times(h * b, h * b + d, p);
  }

  lemma PopEnds(s: ReachSearch)
    requires s.stack != [] && |s.stack| <= |s.types| && TopReach(s).id < |s.state|
    ensures SearchLeft(s.types, PoppedNode(s).stack) < SearchLeft(s.types, s.stack)
  {
    var b := MaxMembers(s.types) + 2;
    var left := |s.types| - |s.stack|;
    SameTurns(s.types, PoppedNode(s).stack, BelowTop(s));
    PowPositive(b, left);
    assert Pow(b, left + 1) == b * Pow(b, left);
    PopCompare(StackNumber(s.types, BelowTop(s)), Turns(s.types, TopReach(s)), b, Pow(b, left));
  }

  lemma StackFits(s: ReachSearch)
    requires InProgress(s)
    ensures |s.stack| <= |s.types|
    ensures forall m: nat :: m < |s.types| && s.state[m].Unchecked? ==> |s.stack| < |s.types|
  {
    var ids := seq(|s.stack|, a requires 0 <= a < |s.stack| => s.stack[a].id);
    Pigeonhole(ids, |s.types|);
    if m: nat :| m < |s.types| && s.state[m].Unchecked? {
      Pigeonhole(ids + [m], |s.types|);
    }
  }

  // ----- what a query can check -----

  /** m is v, or a member of v at some depth. */
  ghost predicate Below(types: Simples, v: nat, m: nat) {
    exists path: seq<nat> :: PathBelow(types, v, m, path)
  }

  ghost predicate PathBelow(types: Simples, v: nat, m: nat, path: seq<nat>) {
    UnionPath(types, path) && path[0] == v && path[|path| - 1] == m
  }

  lemma SelfBelow(types: Simples, v: nat)
    ensures Below(types, v, v)
  {
    assert PathBelow(types, v, v, [v]);
  }

  lemma StepBelow(types: Simples, v: nat, m: nat, k: nat)
    requires Below(types, v, m) && UnionStep(types, m, k)
    ensures Below(types, v, k)
  {
    var path: seq<nat> :| PathBelow(types, v, m, path);
    assert PathBelow(types, v, k, path + [k]);
  }

  ghost predicate AllBelow(types: Simples, v: nat, nodes: set<nat>) {
    forall m :: m in nodes ==> Below(types, v, m)
  }

  /** Only these nodes have become checked. */
  ghost predicate CheckedWithin(before: seq<ReachState>, after: seq<ReachState>, nodes: set<nat>) {
    match (before, after) case (b, a) =>
      |b| == |a| && forall i: nat :: i < |a| && a[i].Checked? ==> b[i].Checked? || i in nodes
  }

  lemma SetWithin(before: seq<ReachState>, after: seq<ReachState>, nodes: set<nat>, v: nat, now: ReachState)
    requires CheckedWithin(before, after, nodes) && v < |after| && (now.Checked? ==> v in nodes)
    ensures CheckedWithin(before, after[v := now], nodes)
  {
  }

  lemma SameWithin(state: seq<ReachState>, nodes: set<nat>)
    ensures CheckedWithin(state, state, nodes)
  {
  }

  /** Only members of v at some depth have become checked. */
  ghost predicate NewlyBelow(types: Simples, v: nat, before: seq<ReachState>, after: seq<ReachState>) {
    |before| <= |after|
    && forall i: nat :: i < |after| && after[i].Checked? ==> (i < |before| && before[i].Checked?) || Below(types, v, i)
  }

  lemma FrameVisited(s: ReachSearch, a: nat)
    requires InProgress(s) && a < |s.stack|
    ensures s.stack[a].id in s.visited
  {
    assert FrameKnows(s, s.stack[a], a < |s.stack| - 1);
  }

  lemma VisitedBelow(s: ReachSearch, id: nat, visited: set<nat>)
    requires InProgress(s) && s.stack != [] && AllBelow(s.types, id, s.visited)
    requires forall v :: v in visited && v !in s.visited ==> UnionStep(s.types, TopReach(s).id, v)
    ensures AllBelow(s.types, id, visited)
  {
    FrameVisited(s, |s.stack| - 1);
    forall v | v in visited && v !in s.visited
      ensures Below(s.types, id, v)
    {
      StepBelow(s.types, id, TopReach(s).id, v);
    }
  }

  // ----- the query -----

  class ListReachability {
    var state: seq<ReachState>
    var reaches: seq<bool>

    constructor ()
      ensures state == [] && reaches == []
    {
      state, reaches := [], [];
    }

    ghost function Searching(types: Simples, stack: seq<ReachFrame>, visited: set<nat>): ReachSearch
      reads this
    {
      ReachSearch(types, state, reaches, stack, visited)
    }

    /** Everything on the stack reaches the list that was found. */
    method MarkStack(types: Simples, stack: seq<ReachFrame>, ghost visited: set<nat>)
      requires InProgress(Searching(types, stack, visited)) && stack != [] && ReachesList(types, stack[|stack| - 1].id)
      modifies this
      ensures Remembered(types, state, reaches) && ReachesList(types, stack[0].id)
      ensures CheckedWithin(old(state), state, visited)
    {
      ghost var s := Searching(types, stack, visited);
      forall a | 0 <= a < |stack|
        ensures ReachesList(types, stack[a].id) && stack[a].id in visited
      {
        AllOnStackReach(s, a);
        FrameVisited(s, a);
      }
      MarkFrames(types, stack, visited);
    }

    method MarkFrames(types: Simples, stack: seq<ReachFrame>, ghost visited: set<nat>)
      requires Marking(types, state, reaches, stack)
      requires forall a :: 0 <= a < |stack| ==> ReachesList(types, stack[a].id) && stack[a].id in visited
      modifies this
      ensures Remembered(types, state, reaches) && CheckedWithin(old(state), state, visited)
    {
      SameWithin(state, visited);
      assert stack[0..] == stack;
      for a := 0 to |stack|
        invariant Marking(types, state, reaches, stack[a..]) && CheckedWithin(old(state), state, visited)
      {
        MarkOne(types, state, reaches, stack, a);
        SetWithin(old(state), state, visited, stack[a].id, Checked);
        reaches := reaches[stack[a].id := true];
        state := state[stack[a].id := Checked];
      }
    }

    /** The top node has looked at all its members. */
    method PopTop(types: Simples, stack: seq<ReachFrame>, ghost visited: set<nat>) returns (stack': seq<ReachFrame>)
      requires MayPop(Searching(types, stack, visited))
      modifies this
      ensures InProgress(Searching(types, stack', visited)) && SearchLeft(types, stack') < SearchLeft(types, stack)
      ensures stack' != [] ==> stack'[0].id == stack[0].id
      ensures CheckedWithin(old(state), state, visited)
    {
      ghost var s := Searching(types, stack, visited);
      var f := stack[|stack| - 1];
      StackFits(s);
      FrameVisited(s, |stack| - 1);
      Popped(s);
      PopEnds(s);
      SameWithin(state, visited);
      SetWithin(state, state, visited, f.id, if f.unstable then Unchecked else Checked);
      state := state[f.id := if f.unstable then Unchecked else Checked];
      stack' := if f.unstable then Tainted(stack[..|stack| - 1]) else stack[..|stack| - 1];
      assert Searching(types, stack', visited) == PoppedNode(s);
    }

    /** Goes on with a member that has not been checked. */
    method PushTop(types: Simples, stack: seq<ReachFrame>, ghost visited: set<nat>, member: nat) returns (stack': seq<ReachFrame>)
      requires MayPush(Searching(types, stack, visited), member)
      modifies this
      ensures InProgress(Searching(types, stack', visited + {member})) && SearchLeft(types, stack') < SearchLeft(types, stack)
      ensures stack' != [] && stack'[0].id == stack[0].id
      ensures CheckedWithin(old(state), state, visited + {member})
    {
      ghost var s := Searching(types, stack, visited);
      StackFits(s);
      Pushed(s, member);
      PushEnds(s, member);
      SameWithin(state, visited + {member});
      SetWithin(state, state, visited + {member}, member, Checking);
      state := state[member := Checking];
      stack' := stack[..|stack| - 1] + [Bump(stack[|stack| - 1], false), ReachFrame(member, 0, false)];
      assert Searching(types, stack', visited + {member}) == PushedMember(s, member);
    }

    /** Passes over a member that is checked, being checked or missing. */
    method SkipTop(types: Simples, stack: seq<ReachFrame>, ghost visited: set<nat>, member: nat) returns (stack': seq<ReachFrame>)
      requires InProgress(Searching(types, stack, visited)) && stack != []
      requires var f := stack[|stack| - 1];
               && f.next < |MembersOf(types, f.id)| && member == MembersOf(types, f.id)[f.next]
      requires member < |types| ==> state[member].Checking? || (state[member].Checked? && !reaches[member])
      ensures InProgress(Searching(types, stack', visited)) && SearchLeft(types, stack') < SearchLeft(types, stack)
      ensures stack' != [] && stack'[0].id == stack[0].id
    {
      ghost var s := Searching(types, stack, visited);
      var unstable := member < |types| && state[member].Checking?;
      StackFits(s);
      if unstable {
        CheckingIsVisited(s, member);
      }
      Skipped(s, unstable);
      SkipEnds(s, unstable);
      stack' := stack[..|stack| - 1] + [Bump(stack[|stack| - 1], unstable)];
      assert Searching(types, stack', visited) == SkippedMember(s, unstable);
    }

    /** One turn of the search. */
    method Turn(types: Simples, stack: seq<ReachFrame>, ghost visited: set<nat>)
      returns (found: bool, stack': seq<ReachFrame>, ghost visited': set<nat>)
      requires InProgress(Searching(types, stack, visited)) && stack != []
      modifies this
      ensures found ==> ReachesList(types, stack[|stack| - 1].id)
                        && state == old(state) && reaches == old(reaches) && visited' == visited && stack' == stack
      ensures stack' != [] ==> stack'[0].id == stack[0].id
      ensures !found ==> InProgress(Searching(types, stack', visited')) && SearchLeft(types, stack') < SearchLeft(types, stack)
      ensures visited <= visited' && CheckedWithin(old(state), state, visited')
      ensures forall v :: v in visited' && v !in visited ==> UnionStep(types, stack[|stack| - 1].id, v)
    {
      ghost var s := Searching(types, stack, visited);
      StackFits(s);
      SameWithin(state, visited);
      var f := stack[|stack| - 1];
      if types[f.id].variety.List? {
        ListReaches(types, f.id);
        return true, stack, visited;
      }
      if types[f.id].variety != Union || f.next >= |types[f.id].members| {
        stack' := PopTop(types, stack, visited);
        return false, stack', visited;
      }
      var member := types[f.id].members[f.next];
      if member < |types| {
        if state[member].Checked? && reaches[member] {
          StepReaches(types, f.id, member);
          return true, stack, visited;
        }
        if state[member].Unchecked? {
          stack' := PushTop(types, stack, visited, member);
          return false, stack', visited + {member};
        }
      }
      stack' := SkipTop(types, stack, visited, member);
      return false, stack', visited;
    }

    /** Searches from a node that has just been put on the stack. */
    method Search(types: Simples, id: nat) returns (r: bool)
      requires InProgress(Searching(types, [ReachFrame(id, 0, false)], {id}))
      modifies this
      ensures Remembered(types, state, reaches) && |state| == |types|
      ensures r <==> ReachesList(types, id)
      ensures NewlyBelow(types, id, old(state), state)
    {
      var stack := [ReachFrame(id, 0, false)];
      ghost var visited := {id};
      SelfBelow(types, id);
      while stack != []
        invariant InProgress(Searching(types, stack, visited)) && id in visited
        invariant AllBelow(types, id, visited) && CheckedWithin(old(state), state, visited)
        invariant stack != [] ==> stack[0].id == id
        decreases SearchLeft(types, stack)
      {
        ghost var before := Searching(types, stack, visited);
        var found;
        found, stack, visited := Turn(types, stack, visited);
        VisitedBelow(before, id, visited);
        if found {
          MarkStack(types, stack, visited);
          return true;
        }
      }
      NothingReached(Searching(types, stack, visited), id);
      return false;
    }

    /** Makes room for types added since the last query. */
    method Grow(n: nat)
      requires |state| == |reaches| <= n
      modifies this
      ensures |state| == |reaches| == n
      ensures forall i :: 0 <= i < n ==> state[i] == if i < old(|state|) then old(state)[i] else Unchecked
      ensures forall i :: 0 <= i < n ==> reaches[i] == (i < old(|state|) && old(reaches)[i])
    {
      var missing := n - |state|;
      state := state + seq(missing, _ => Unchecked);
      reaches := reaches + seq(missing, _ => false);
    }

    /** Whether a list type is reached from id. It ends on every graph, cyclic or not. */
    method ReachesListFrom(types: Simples, id: nat) returns (r: bool)
      requires Remembered(types, state, reaches)
      modifies this
      ensures Remembered(types, state, reaches)
      ensures r <==> ReachesList(types, id)
      ensures NewlyBelow(types, id, old(state), state)
    {
      if id >= |types| {
        OutsideReachesNone(types, id);
        return false;
      }
      Grow(|types|);
      if state[id].Checked? {
        return reaches[id];
      }
      state := state[id := Checking];
      FirstNode(Searching(types, [ReachFrame(id, 0, false)], {id}), id);
      r := Search(types, id);
    }
  }

  /** Only nodes on the rest of the stack are still in progress. */
  ghost predicate Marking(types: Simples, state: seq<ReachState>, reaches: seq<bool>, rest: seq<ReachFrame>) {
    && CheckedRight(ReachSearch(types, state, reaches, [], {}))
    && (forall a :: 0 <= a < |rest| ==> rest[a].id < |types|)
    && forall i: nat :: i < |state| && state[i].Checking? ==> OnReachStack(rest, i)
  }

  lemma MarkOne(types: Simples, state: seq<ReachState>, reaches: seq<bool>, stack: seq<ReachFrame>, a: nat)
    requires a < |stack| && Marking(types, state, reaches, stack[a..]) && ReachesList(types, stack[a].id)
    ensures stack[a].id < |types|
    ensures Marking(types, state[stack[a].id := Checked], reaches[stack[a].id := true], stack[a + 1..])
  {
    var v, rest, rest' := stack[a].id, stack[a..], stack[a + 1..];
    assert rest == [stack[a]] + rest';
    forall i: nat | i < |state| && state[v := Checked][i].Checking?
      ensures OnReachStack(rest', i)
    {
      var c :| 0 <= c < |rest| && rest[c].id == i;
      assert rest'[c - 1].id == i;
    }
  }

  lemma CheckingIsVisited(s: ReachSearch, m: nat)
    requires InProgress(s) && m < |s.types| && s.state[m].Checking?
    ensures m in s.visited
  {
    assert OnReachStack(s.stack, m);
    var a :| 0 <= a < |s.stack| && s.stack[a].id == m;
    assert FrameKnows(s, s.stack[a], a < |s.stack| - 1);
  }

  lemma OutsideReachesNone(types: Simples, id: nat)
    requires id >= |types|
    ensures !ReachesList(types, id)
  {
    NoneFromMembers(types, id);
  }

  lemma FirstNode(s: ReachSearch, id: nat)
    requires id < |s.types| && CheckedRight(s) && s.stack == [ReachFrame(id, 0, false)] && s.visited == {id}
    requires s.state[id].Checking? && forall i :: 0 <= i < |s.state| && s.state[i].Checking? ==> i == id
    ensures InProgress(s)
  {
    assert s.stack[0].id == id;
  }
}
