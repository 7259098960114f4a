/** The search over pairs of simple types: from (derived, base) it moves the base to a
    union member or the derived type to its base, looking for a pair of equals. */
module PairSearches {
  import opened Schema
  import opened Ancestry
  import opened TypeGraphs

  type Pair = (nat, nat)

  datatype PairFrame = PairFrame(derived: nat, base: nat, next: nat, entered: bool)

  function PairOf(f: PairFrame): Pair {
    (f.derived, f.base)
  }

  predicate Missing(t: Types, p: Pair) {
    p.0 >= |t.simple| || p.1 >= |t.simple|
  }

  function UnionMembers(t: Types, y: nat): seq<nat> {
    if y < |t.simple| && t.simple[y].variety.Union? then t.simple[y].members else []
  }

  /** The i-th pair next to p: the members of the base, then the base of the derived type. */
  function Next(t: Types, p: Pair, i: nat): Option<Pair> {
    var members := UnionMembers(t, p.1);
    if Missing(t, p) then None
    else if i < |members| then Some((p.0, members[i]))
    else if i == |members| && t.simple[p.0].base.Some? && t.simple[p.0].base.value != p.0 then Some((t.simple[p.0].base.value, p.1))
    else None
  }

  ghost predicate PairEdge(t: Types, p: Pair, q: Pair) {
    exists i: nat :: Next(t, p, i) == Some(q)
  }

  ghost predicate PairPath(t: Types, path: seq<Pair>) {
    path != [] && forall i, j :: 0 <= i < j < |path| && j == i + 1 ==> PairEdge(t, path[i], path[j])
  }

  ghost predicate PairPathTo(t: Types, p: Pair, q: Pair, path: seq<Pair>) {
    PairPath(t, path) && path[0] == p && path[|path| - 1] == q
  }

  ghost predicate PairReachable(t: Types, p: Pair, q: Pair) {
    exists path: seq<Pair> :: PairPathTo(t, p, q, path)
  }

  /** Some pair of equals can be reached. */
  ghost predicate Meets(t: Types, p: Pair) {
    exists z: nat :: PairReachable(t, p, (z, z))
  }

  lemma PairSelf(t: Types, p: Pair)
    ensures PairReachable(t, p, p)
  {
    assert PairPathTo(t, p, p, [p]);
  }

  lemma PairExtend(t: Types, p: Pair, q: Pair, i: nat)
    requires PairReachable(t, p, q) && Next(t, q, i).Some?
    ensures PairReachable(t, p, Next(t, q, i).value)
  {
    var path: seq<Pair> :| PairPathTo(t, p, q, path);
    assert PairEdge(t, q, Next(t, q, i).value);
    assert PairPathTo(t, p, Next(t, q, i).value, path + [Next(t, q, i).value]);
  }

  // ----- the invariant of the search -----

  /** The frame on top that has not been looked at. */
  function Pending(stack: seq<PairFrame>): Option<Pair> {
    if stack != [] && !stack[|stack| - 1].entered then Some(PairOf(stack[|stack| - 1])) else None
  }

  /** q has been looked at and is no pair of equals, or is about to be looked at. */
  ghost predicate Resolved(t: Types, seen: set<Pair>, pending: Option<Pair>, q: Pair) {
    (q.0 != q.1 && (q in seen || Missing(t, q))) || pending == Some(q)
  }

  ghost predicate NextResolved(t: Types, seen: set<Pair>, pending: Option<Pair>, q: Pair, n: nat) {
    forall i :: 0 <= i < n && Next(t, q, i).Some? ==> Resolved(t, seen, pending, Next(t, q, i).value)
  }

  function NextCount(t: Types, q: Pair): nat {
    |UnionMembers(t, q.1)| + 1
  }

  /** Some frame on the stack is working through q's neighbours. */
  ghost predicate InWork(t: Types, seen: set<Pair>, stack: seq<PairFrame>, q: Pair) {
    exists a :: 0 <= a < |stack| && WorksOn(t, seen, Pending(stack), stack[a], q)
  }

  ghost predicate WorksOn(t: Types, seen: set<Pair>, pending: Option<Pair>, f: PairFrame, q: Pair) {
    f.entered && PairOf(f) == q && NextResolved(t, seen, pending, q, f.next)
  }

  ghost predicate SeenRight(t: Types, seen: set<Pair>, stack: seq<PairFrame>) {
    forall q :: q in seen ==>
      && q.0 != q.1 && !Missing(t, q)
      && (InWork(t, seen, stack, q) || NextResolved(t, seen, Pending(stack), q, NextCount(t, q)))
  }

  ghost predicate FrameRight(t: Types, start: Pair, seen: set<Pair>, f: PairFrame) {
    && PairReachable(t, start, PairOf(f))
    && (f.entered ==> PairOf(f) in seen && f.next <= NextCount(t, PairOf(f)))
    && (!f.entered ==> f.next == 0)
  }

  ghost predicate StackRight(t: Types, start: Pair, seen: set<Pair>, stack: seq<PairFrame>) {
    && (forall a :: 0 <= a < |stack| ==> FrameRight(t, start, seen, stack[a]))
    && (forall a :: 0 <= a < |stack| - 1 ==> stack[a].entered)
  }

  datatype PairState = PairState(t: Types, start: Pair, seen: set<Pair>, stack: seq<PairFrame>)

  ghost predicate Searching(s: PairState) {
    match s case PairState(t, start, seen, stack) =>
      SeenRight(t, seen, stack) && StackRight(t, start, seen, stack) && Resolved(t, seen, Pending(stack), start)
  }

  function LastFrame(s: PairState): PairFrame
    requires s.stack != []
  {
    s.stack[|s.stack| - 1]
  }

  function DropLast(s: PairState): seq<PairFrame>
    requires s.stack != []
  {
    s.stack[..|s.stack| - 1]
  }

  // ----- what a step keeps -----

  /** What was resolved stays resolved. */
  ghost predicate Keeps(t: Types, seen: set<Pair>, pending: Option<Pair>, seen': set<Pair>, pending': Option<Pair>) {
    forall q :: Resolved(t, seen, pending, q) ==> Resolved(t, seen', pending', q)
  }

  lemma NextStillResolved(t: Types, seen: set<Pair>, pending: Option<Pair>, seen': set<Pair>, pending': Option<Pair>, q: Pair, n: nat)
    requires Keeps(t, seen, pending, seen', pending') && NextResolved(t, seen, pending, q, n)
    ensures NextResolved(t, seen', pending', q, n)
  {
    forall i | 0 <= i < n && Next(t, q, i).Some?
      ensures Resolved(t, seen', pending', Next(t, q, i).value)
    {
      assert Resolved(t, seen, pending, Next(t, q, i).value);
    }
  }

  /** A step that changes only the last frame keeps the others at work. */
  lemma SeenStillRight(t: Types, seen: set<Pair>, stack: seq<PairFrame>, stack': seq<PairFrame>, q: Pair)
    requires stack != [] && SeenRight(t, seen, stack) && q in seen
    requires |stack| - 1 <= |stack'| && forall a :: 0 <= a < |stack| - 1 ==> stack'[a] == stack[a]
    requires Keeps(t, seen, Pending(stack), seen, Pending(stack'))
    ensures InWork(t, seen, stack', q)
            || NextResolved(t, seen, Pending(stack'), q, NextCount(t, q))
            || WorksOn(t, seen, Pending(stack), stack[|stack| - 1], q)
  {
    if InWork(t, seen, stack, q) {
      var a :| 0 <= a < |stack| && WorksOn(t, seen, Pending(stack), stack[a], q);
      if a < |stack| - 1 {
        NextStillResolved(t, seen, Pending(stack), seen, Pending(stack'), q, stack[a].next);
        assert WorksOn(t, seen, Pending(stack'), stack'[a], q);
      }
    } else {
      NextStillResolved(t, seen, Pending(stack), seen, Pending(stack'), q, NextCount(t, q));
    }
  }

  /** A pair that was seen, or has a missing type, is dropped. */
  lemma Dropped(s: PairState)
    requires Searching(s) && s.stack != [] && !LastFrame(s).entered
    requires LastFrame(s).derived != LastFrame(s).base
    requires Missing(s.t, PairOf(LastFrame(s))) || PairOf(LastFrame(s)) in s.seen
    ensures Searching(s.(stack := DropLast(s)))
  {
    var stack' := DropLast(s);
    assert Pending(stack') == None;
    forall q | q in s.seen
      ensures InWork(s.t, s.seen, stack', q) || NextResolved(s.t, s.seen, None, q, NextCount(s.t, q))
    {
      SeenStillRight(s.t, s.seen, s.stack, stack', q);
    }
  }

  function EnteredFrame(f: PairFrame): PairFrame {
    f.(entered := true)
  }

  /** A new pair is marked and worked on. */
  lemma {:induction false} Marked(s: PairState)
    requires Searching(s) && s.stack != [] && !LastFrame(s).entered
    requires LastFrame(s).derived != LastFrame(s).base && !Missing(s.t, PairOf(LastFrame(s)))
    ensures Searching(s.(seen := s.seen + {PairOf(LastFrame(s))}, stack := DropLast(s) + [EnteredFrame(LastFrame(s))]))
  {
    var p := PairOf(LastFrame(s));
    var seen', stack' := s.seen + {p}, DropLast(s) + [EnteredFrame(LastFrame(s))];
    assert Keeps(s.t, s.seen, Pending(s.stack), seen', None);
    forall q | q in seen'
      ensures q.0 != q.1 && !Missing(s.t, q)
      ensures InWork(s.t, seen', stack', q) || NextResolved(s.t, seen', None, q, NextCount(s.t, q))
    {
      if q == p {
        assert WorksOn(s.t, seen', None, stack'[|stack'| - 1], p);
      } else if InWork(s.t, s.seen, s.stack, q) {
        var a :| 0 <= a < |s.stack| && WorksOn(s.t, s.seen, Pending(s.stack), s.stack[a], q);
        NextStillResolved(s.t, s.seen, Pending(s.stack), seen', None, q, s.stack[a].next);
        assert WorksOn(s.t, seen', None, stack'[a], q);
      } else {
        NextStillResolved(s.t, s.seen, Pending(s.stack), seen', None, q, NextCount(s.t, q));
      }
    }
    forall a | 0 <= a < |stack'|
      ensures FrameRight(s.t, s.start, seen', stack'[a])
    {
      assert FrameRight(s.t, s.start, s.seen, s.stack[a]);
    }
  }

  function Bumped(f: PairFrame): PairFrame {
    f.(next := f.next + 1)
  }

  /** The neighbour in turn is put on the stack, or needs no look. */
  ghost predicate Turn(s: PairState, stack': seq<PairFrame>) {
    && s.stack != [] && LastFrame(s).entered && LastFrame(s).next < NextCount(s.t, PairOf(LastFrame(s)))
    && var n := Next(s.t, PairOf(LastFrame(s)), LastFrame(s).next);
       || (stack' == DropLast(s) + [Bumped(LastFrame(s))] && (n.Some? ==> n.value in s.seen))
       || (n.Some? && stack' == DropLast(s) + [Bumped(LastFrame(s)), PairFrame(n.value.0, n.value.1, 0, false)])
  }

  lemma {:induction false} TurnSeen(s: PairState, stack': seq<PairFrame>, q: Pair)
    requires Searching(s) && Turn(s, stack') && q in s.seen
    ensures InWork(s.t, s.seen, stack', q) || NextResolved(s.t, s.seen, Pending(stack'), q, NextCount(s.t, q))
  {
    var f := LastFrame(s);
    assert Pending(s.stack) == None;
    SeenStillRight(s.t, s.seen, s.stack, stack', q);
    if WorksOn(s.t, s.seen, Pending(s.stack), f, q) {
      NextStillResolved(s.t, s.seen, None, s.seen, Pending(stack'), q, f.next);
      assert WorksOn(s.t, s.seen, Pending(stack'), stack'[|s.stack| - 1], q);
    }
  }

  lemma {:induction false} TurnTaken(s: PairState, stack': seq<PairFrame>)
    requires Searching(s) && Turn(s, stack')
    ensures Searching(s.(stack := stack'))
  {
    var f := LastFrame(s);
    forall q | q in s.seen
      ensures InWork(s.t, s.seen, stack', q) || NextResolved(s.t, s.seen, Pending(stack'), q, NextCount(s.t, q))
    {
      TurnSeen(s, stack', q);
    }
    assert FrameRight(s.t, s.start, s.seen, f);
    if Next(s.t, PairOf(f), f.next).Some? {
      PairExtend(s.t, s.start, PairOf(f), f.next);
    }
    forall a | 0 <= a < |stack'|
      ensures FrameRight(s.t, s.start, s.seen, stack'[a])
    {
      if a < |s.stack| - 1 {
        assert FrameRight(s.t, s.start, s.seen, s.stack[a]);
      }
    }
  }

  /** A pair whose neighbours have all had their turn is left. */
  lemma {:induction false} Finished(s: PairState)
    requires Searching(s) && s.stack != [] && LastFrame(s).entered
    requires forall i :: LastFrame(s).next <= i < NextCount(s.t, PairOf(LastFrame(s))) ==> Next(s.t, PairOf(LastFrame(s)), i).None?
    ensures Searching(s.(stack := DropLast(s)))
  {
    var stack' := DropLast(s);
    assert Pending(stack') == Pending(s.stack) == None;
    forall q | q in s.seen
      ensures InWork(s.t, s.seen, stack', q) || NextResolved(s.t, s.seen, None, q, NextCount(s.t, q))
    {
      SeenStillRight(s.t, s.seen, s.stack, stack', q);
    }
  }

  // ----- what the answers mean -----

  lemma {:induction false} PathStaysSeen(s: PairState, path: seq<Pair>)
    requires Searching(s) && s.stack == [] && PairPath(s.t, path) && path[0] == s.start
    ensures Resolved(s.t, s.seen, None, path[|path| - 1])
    decreases |path|
  {
    if |path| > 1 {
      var n := |path| - 1;
      PathStaysSeen(s, path[..n]);
      assert PairEdge(s.t, path[n - 1], path[n]);
      var i: nat :| Next(s.t, path[n - 1], i) == Some(path[n]);
      assert NextResolved(s.t, s.seen, None, path[n - 1], NextCount(s.t, path[n - 1]));
    }
  }

  lemma NothingMet(s: PairState)
    requires Searching(s) && s.stack == []
    ensures !Meets(s.t, s.start)
  {
    if Meets(s.t, s.start) {
      var z: nat :| PairReachable(s.t, s.start, (z, z));
      var path: seq<Pair> :| PairPathTo(s.t, s.start, (z, z), path);
      PathStaysSeen(s, path);
    }
  }

  lemma Met(s: PairState, q: Pair)
    requires Searching(s) && PairReachable(s.t, s.start, q) && q.0 == q.1
    ensures Meets(s.t, s.start)
  {
    assert q == (q.0, q.0);
  }

  // ----- the search itself -----

  function AllPairs(t: Types): set<Pair> {
    set x: nat, y: nat | x < |t.simple| && y < |t.simple| :: (x, y)
  }

  function WorkLeft(t: Types, stack: seq<PairFrame>): nat {
    if stack == [] then 0
    else
      var f := stack[|stack| - 1];
      WorkLeft(t, stack[..|stack| - 1])
      + if f.entered && f.next <= NextCount(t, PairOf(f)) then NextCount(t, PairOf(f)) + 1 - f.next else 0
  }

  ghost predicate Closer(s: PairState, s': PairState) {
    var u, u' := |AllPairs(s.t) - s.seen|, |AllPairs(s.t) - s'.seen|;
    || u' < u
    || (u' == u && WorkLeft(s.t, s'.stack) < WorkLeft(s.t, s.stack))
    || (u' == u && WorkLeft(s.t, s'.stack) == WorkLeft(s.t, s.stack) && |s'.stack| < |s.stack|)
  }

  lemma MarkCloser(s: PairState, s': PairState)
    requires s.stack != [] && PairOf(LastFrame(s)) !in s.seen && !Missing(s.t, PairOf(LastFrame(s)))
    requires s'.seen == s.seen + {PairOf(LastFrame(s))}
    ensures Closer(s, s')
  {
    assert PairOf(LastFrame(s)) in AllPairs(s.t) - s.seen;
    assert AllPairs(s.t) - s'.seen == (AllPairs(s.t) - s.seen) - {PairOf(LastFrame(s))};
  }

  lemma TurnCloser(s: PairState, stack': seq<PairFrame>)
    requires Turn(s, stack')
    ensures Closer(s, s.(stack := stack'))
  {
    var bumped := DropLast(s) + [Bumped(LastFrame(s))];
    assert bumped[..|bumped| - 1] == DropLast(s);
    if |stack'| > |bumped| {
      assert stack'[..|stack'| - 1] == bumped;
    }
  }

  /** Looks at the top pair for the first time: it may be the answer, be dropped, or be
      marked. Returns whether the search is over. */
  method LookAt(t: Types, seen: set<Pair>, stack: seq<PairFrame>, ghost s: PairState)
    returns (met: bool, seen': set<Pair>, stack': seq<PairFrame>)
    requires Searching(s) && s.t == t && s.seen == seen && s.stack == stack && stack != [] && !LastFrame(s).entered
    ensures met ==> Meets(t, s.start)
    ensures !met ==> Searching(PairState(t, s.start, seen', stack')) && Closer(s, PairState(t, s.start, seen', stack'))
  {
    var f := stack[|stack| - 1];
    var p := PairOf(f);
    assert FrameRight(t, s.start, seen, f);
    if f.derived == f.base {
      Met(s, p);
      return true, seen, stack;
    }
    if Missing(t, p) || p in seen {
      Dropped(s);
      return false, seen, stack[..|stack| - 1];
    }
    Marked(s);
    seen', stack' := seen + {p}, stack[..|stack| - 1] + [EnteredFrame(f)];
    MarkCloser(s, PairState(t, s.start, seen', stack'));
    return false, seen', stack';
  }

  /** Gives the next neighbour of the top pair its turn, or leaves the pair. */
  method TakeTurn(t: Types, seen: set<Pair>, stack: seq<PairFrame>, ghost s: PairState)
    returns (met: bool, stack': seq<PairFrame>)
    requires Searching(s) && s.t == t && s.seen == seen && s.stack == stack && stack != [] && LastFrame(s).entered
    ensures met ==> Meets(t, s.start)
    ensures !met ==> Searching(s.(stack := stack')) && Closer(s, s.(stack := stack'))
  {
    var f := stack[|stack| - 1];
    var p := PairOf(f);
    assert FrameRight(t, s.start, seen, f);
    var n := Next(t, p, f.next);
    if f.next < NextCount(t, p) && n.Some? {
      if n.value.0 == n.value.1 {
        PairExtend(t, s.start, p, f.next);
        Met(s, n.value);
        return true, stack;
      }
      stack' := stack[..|stack| - 1] + [Bumped(f)];
      if n.value !in seen {
        stack' := stack[..|stack| - 1] + [Bumped(f), PairFrame(n.value.0, n.value.1, 0, false)];
      }
      TurnTaken(s, stack');
      TurnCloser(s, stack');
      return false, stack';
    }
    NothingAfter(t, p, f.next);
    Finished(s);
    return false, stack[..|stack| - 1];
  }

  /** Only the last neighbour can be absent. */
  lemma NothingAfter(t: Types, p: Pair, k: nat)
    requires !Missing(t, p) && (k < NextCount(t, p) ==> Next(t, p, k).None?)
    ensures forall i :: k <= i < NextCount(t, p) ==> Next(t, p, i).None?
  {
  }

  /** Whether the search from a pair of types meets a pair of equals. It ends on every
      graph, and missing types have no neighbours. */
  method SearchPairs(t: Types, derived: nat, base: nat) returns (met: bool)
    ensures met <==> Meets(t, (derived, base))
  {
    var seen: set<Pair> := {};
    var stack := [PairFrame(derived, base, 0, false)];
    ghost var s := PairState(t, (derived, base), seen, stack);
    PairSelf(t, (derived, base));
    while stack != []
      invariant Searching(s) && s == PairState(t, (derived, base), seen, stack)
      decreases |AllPairs(t) - seen|, WorkLeft(t, stack), |stack|
    {
      if stack[|stack| - 1].entered {
        met, stack := TakeTurn(t, seen, stack, s);
      } else {
        met, seen, stack := LookAt(t, seen, stack, s);
      }
      if met {
        return;
      }
      s := PairState(t, (derived, base), seen, stack);
    }
    NothingMet(s);
    return false;
  }
}
