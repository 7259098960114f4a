/** The depth-first check of a model table's references: it accepts exactly the
    tables whose references are in range and acyclic. */
module ModelGraphs {
  import opened Schema
  import opened ContentLanguage

  datatype GraphState = Unchecked | Checking | Checked

  datatype Frame = Frame(id: nat, next: nat)

  /** Particle j of model i refers to model k. */
  ghost predicate Refers(models: seq<ContentModel>, i: nat, j: nat, k: nat) {
    i < |models| && j < |models[i].particles| && models[i].particles[j].term == ModelTerm(k)
  }

  // ----- what the search has established -----

  ghost predicate RefDone(models: seq<ContentModel>, state: seq<GraphState>, finish: seq<nat>, term: Term, bound: nat)
    requires |state| == |finish| == |models|
  {
    term.ModelTerm? ==> term.model < |models| && state[term.model].Checked? && finish[term.model] < bound
  }

  /** The references of model i before particle n lead to checked models finished earlier. */
  ghost predicate RefsDone(models: seq<ContentModel>, state: seq<GraphState>, finish: seq<nat>, i: nat, n: nat, bound: nat)
    requires |state| == |finish| == |models| && i < |models| && n <= |models[i].particles|
  {
    forall j :: 0 <= j < n ==> RefDone(models, state, finish, models[i].particles[j].term, bound)
  }

  ghost predicate CheckedDone(models: seq<ContentModel>, state: seq<GraphState>, finish: seq<nat>, clock: nat)
    requires |state| == |finish| == |models|
  {
    forall i: nat :: i < |models| && state[i].Checked? ==>
      finish[i] < clock && RefsDone(models, state, finish, i, |models[i].particles|, finish[i])
  }

  /** The first frame is following its reference to the second. */
  ghost predicate Linked(models: seq<ContentModel>, f: Frame, g: Frame) {
    f.next > 0 && Refers(models, f.id, f.next - 1, g.id)
  }

  /** The stack is a path of references, and holds exactly the models being checked. */
  ghost predicate OnPath(models: seq<ContentModel>, state: seq<GraphState>, stack: seq<Frame>)
    requires |state| == |models|
  {
    && (forall a :: 0 <= a < |stack| ==>
          stack[a].id < |models| && stack[a].next <= |models[stack[a].id].particles| && state[stack[a].id].Checking?)
    && (forall a, b :: 0 <= a < b < |stack| ==> stack[a].id != stack[b].id)
    && (forall a, b :: 0 <= a < b < |stack| && b == a + 1 ==> Linked(models, stack[a], stack[b]))
    && (forall i :: 0 <= i < |models| && state[i].Checking? ==> exists a :: 0 <= a < |stack| && stack[a].id == i)
  }

  /** A frame's references are done, but for the one that is being followed. */
  ghost predicate FrameDone(models: seq<ContentModel>, state: seq<GraphState>, finish: seq<nat>, f: Frame, open: bool, clock: nat)
    requires |state| == |finish| == |models|
  {
    && f.id < |models| && f.next <= |models[f.id].particles|
    && (if open then f.next > 0 && RefsDone(models, state, finish, f.id, f.next - 1, clock)
        else RefsDone(models, state, finish, f.id, f.next, clock))
  }

  /** How far each frame on the stack has come. */
  ghost predicate FramesDone(models: seq<ContentModel>, state: seq<GraphState>, finish: seq<nat>, stack: seq<Frame>, clock: nat)
    requires |state| == |finish| == |models|
  {
    forall a :: 0 <= a < |stack| ==> FrameDone(models, state, finish, stack[a], a < |stack| - 1, clock)
  }

  datatype Search = Search(models: seq<ContentModel>, state: seq<GraphState>, finish: seq<nat>, stack: seq<Frame>, clock: nat)

  ghost predicate Sound(s: Search) {
    match s case Search(models, state, finish, stack, clock) =>
      && |state| == |finish| == |models|
      && CheckedDone(models, state, finish, clock)
      && OnPath(models, state, stack)
      && FramesDone(models, state, finish, stack, clock)
  }

  function Top(stack: seq<Frame>): Frame
    requires stack != []
  {
    stack[|stack| - 1]
  }

  function UncheckedSet(state: seq<GraphState>): set<nat> {
    set i: nat | i < |state| && state[i].Unchecked?
  }

  // ----- the moves of the search -----

  function Advanced(stack: seq<Frame>): (r: seq<Frame>)
    ensures |r| == |stack|
    ensures forall a :: 0 <= a < |stack| ==> r[a].id == stack[a].id
    ensures forall a :: 0 <= a < |stack| - 1 ==> r[a] == stack[a]
  {
    if stack == [] then [] else stack[|stack| - 1 := Frame(Top(stack).id, Top(stack).next + 1)]
  }

  lemma PathAdvanced(models: seq<ContentModel>, state: seq<GraphState>, stack: seq<Frame>)
    requires |state| == |models| && OnPath(models, state, stack)
    requires stack != [] ==> Top(stack).next < |models[Top(stack).id].particles|
    ensures OnPath(models, state, Advanced(stack))
  {
    var stack' := Advanced(stack);
    forall i | 0 <= i < |models| && state[i].Checking?
      ensures exists a :: 0 <= a < |stack'| && stack'[a].id == i
    {
      var a :| 0 <= a < |stack| && stack[a].id == i;
      assert stack'[a].id == i;
    }
  }

  /** Skipping a particle that is no reference, or one whose model is done. */
  lemma Skipped(s: Search)
    requires Sound(s) && s.stack != [] && Top(s.stack).next < |s.models[Top(s.stack).id].particles|
    requires RefDone(s.models, s.state, s.finish, s.models[Top(s.stack).id].particles[Top(s.stack).next].term, s.clock)
    ensures Sound(s.(stack := Advanced(s.stack)))
  {
    PathAdvanced(s.models, s.state, s.stack);
    forall a | 0 <= a < |s.stack|
      ensures FrameDone(s.models, s.state, s.finish, Advanced(s.stack)[a], a < |s.stack| - 1, s.clock)
    {
      assert FrameDone(s.models, s.state, s.finish, s.stack[a], a < |s.stack| - 1, s.clock);
    }
  }

  lemma {:induction false} PathPushed(models: seq<ContentModel>, state: seq<GraphState>, stack: seq<Frame>, k: nat)
    requires |state| == |models| && OnPath(models, state, stack) && k < |models| && state[k].Unchecked?
    requires stack != [] ==> Top(stack).next > 0 && Refers(models, Top(stack).id, Top(stack).next - 1, k)
    ensures OnPath(models, state[k := Checking], stack + [Frame(k, 0)])
  {
    var stack', state' := stack + [Frame(k, 0)], state[k := Checking];
    forall i | 0 <= i < |models| && state'[i].Checking?
      ensures exists a :: 0 <= a < |stack'| && stack'[a].id == i
    {
      if i == k {
        assert stack'[|stack'| - 1].id == k;
      } else {
        var a :| 0 <= a < |stack| && stack[a].id == i;
        assert stack'[a].id == i;
      }
    }
  }

  lemma StillDone(models: seq<ContentModel>, state: seq<GraphState>, finish: seq<nat>, state': seq<GraphState>, finish': seq<nat>,
                  i: nat, n: nat, bound: nat, bound': nat)
    requires |state| == |finish| == |models| && i < |models| && n <= |models[i].particles|
    requires |state'| == |finish'| == |models| && bound <= bound'
    requires forall k :: 0 <= k < |models| && state[k].Checked? ==> state'[k].Checked? && finish'[k] == finish[k]
    requires RefsDone(models, state, finish, i, n, bound)
    ensures RefsDone(models, state', finish', i, n, bound')
  {
    forall j | 0 <= j < n
      ensures RefDone(models, state', finish', models[i].particles[j].term, bound')
    {
      assert RefDone(models, state, finish, models[i].particles[j].term, bound);
    }
  }

  lemma FramePushed(s: Search, k: nat, a: nat)
    requires Sound(s) && k < |s.models| && s.state[k].Unchecked? && a < |s.stack|
    requires Top(s.stack).next < |s.models[Top(s.stack).id].particles|
    ensures FrameDone(s.models, s.state[k := Checking], s.finish, Advanced(s.stack)[a], true, s.clock)
  {
    var f := s.stack[a];
    assert FrameDone(s.models, s.state, s.finish, f, a < |s.stack| - 1, s.clock);
    StillDone(s.models, s.state, s.finish, s.state[k := Checking], s.finish, f.id, Advanced(s.stack)[a].next - 1, s.clock, s.clock);
  }

  lemma {:induction false} Pushed(s: Search, k: nat)
    requires Sound(s) && k < |s.models| && s.state[k].Unchecked?
    requires s.stack != [] ==>
               Top(s.stack).next < |s.models[Top(s.stack).id].particles|
               && s.models[Top(s.stack).id].particles[Top(s.stack).next].term == ModelTerm(k)
    ensures Sound(s.(state := s.state[k := Checking], stack := Advanced(s.stack) + [Frame(k, 0)]))
  {
    var stack', state' := Advanced(s.stack) + [Frame(k, 0)], s.state[k := Checking];
    PathAdvanced(s.models, s.state, s.stack);
    PathPushed(s.models, s.state, Advanced(s.stack), k);
    forall a | 0 <= a < |stack'|
      ensures FrameDone(s.models, state', s.finish, stack'[a], a < |stack'| - 1, s.clock)
    {
      if a < |s.stack| {
        FramePushed(s, k, a);
      }
    }
    CheckedPushed(s.models, s.state, s.finish, s.clock, k);
  }

  lemma CheckedPushed(models: seq<ContentModel>, state: seq<GraphState>, finish: seq<nat>, clock: nat, k: nat)
    requires |state| == |finish| == |models| && CheckedDone(models, state, finish, clock) && k < |models| && state[k].Unchecked?
    ensures CheckedDone(models, state[k := Checking], finish, clock)
  {
    forall i: nat | i < |models| && state[k := Checking][i].Checked?
      ensures finish[i] < clock && RefsDone(models, state[k := Checking], finish, i, |models[i].particles|, finish[i])
    {
      StillDone(models, state, finish, state[k := Checking], finish, i, |models[i].particles|, finish[i], finish[i]);
    }
  }

  lemma PathPopped(models: seq<ContentModel>, state: seq<GraphState>, stack: seq<Frame>)
    requires |state| == |models| && OnPath(models, state, stack) && stack != []
    ensures OnPath(models, state[Top(stack).id := Checked], stack[..|stack| - 1])
  {
    var stack', state' := stack[..|stack| - 1], state[Top(stack).id := Checked];
    forall i | 0 <= i < |models| && state'[i].Checking?
      ensures exists a :: 0 <= a < |stack'| && stack'[a].id == i
    {
      var a :| 0 <= a < |stack| && stack[a].id == i;
      assert stack'[a].id == i;
    }
  }

  lemma FramePopped(s: Search, a: nat)
    requires Sound(s) && a < |s.stack| - 1
    ensures var k := Top(s.stack).id;
            FrameDone(s.models, s.state[k := Checked], s.finish[k := s.clock], s.stack[a], a < |s.stack| - 2, s.clock + 1)
  {
    var k, f := Top(s.stack).id, s.stack[a];
    var state', finish' := s.state[k := Checked], s.finish[k := s.clock];
    assert FrameDone(s.models, s.state, s.finish, f, a < |s.stack| - 1, s.clock);
    StillDone(s.models, s.state, s.finish, state', finish', f.id, f.next - 1, s.clock, s.clock + 1);
    assert Linked(s.models, f, s.stack[a + 1]);
  }

  /** A model whose references are all done is done, and finishes last so far. */
  lemma Popped(s: Search)
    requires Sound(s) && s.stack != [] && Top(s.stack).next == |s.models[Top(s.stack).id].particles|
    ensures var k := Top(s.stack).id;
            Sound(Search(s.models, s.state[k := Checked], s.finish[k := s.clock], s.stack[..|s.stack| - 1], s.clock + 1))
  {
    var k := Top(s.stack).id;
    var state', finish', stack' := s.state[k := Checked], s.finish[k := s.clock], s.stack[..|s.stack| - 1];
    PathPopped(s.models, s.state, s.stack);
    forall a | 0 <= a < |stack'|
      ensures FrameDone(s.models, state', finish', stack'[a], a < |stack'| - 1, s.clock + 1)
    {
      FramePopped(s, a);
    }
    assert FrameDone(s.models, s.state, s.finish, Top(s.stack), false, s.clock);
    CheckedPopped(s.models, s.state, s.finish, s.clock, k);
  }

  lemma CheckedPopped(models: seq<ContentModel>, state: seq<GraphState>, finish: seq<nat>, clock: nat, k: nat)
    requires |state| == |finish| == |models| && CheckedDone(models, state, finish, clock) && k < |models| && !state[k].Checked?
    requires RefsDone(models, state, finish, k, |models[k].particles|, clock)
    ensures CheckedDone(models, state[k := Checked], finish[k := clock], clock + 1)
  {
    var state', finish' := state[k := Checked], finish[k := clock];
    forall i: nat | i < |models| && state'[i].Checked?
      ensures finish'[i] < clock + 1 && RefsDone(models, state', finish', i, |models[i].particles|, finish'[i])
    {
      StillDone(models, state, finish, state', finish', i, |models[i].particles|, finish'[i], finish'[i]);
    }
  }

  // ----- what the answers mean -----

  lemma {:induction false} PathDescends(s: Search, rank: seq<nat>, a: nat, b: nat)
    requires Sound(s) && Ranked(s.models, rank) && a <= b < |s.stack|
    ensures rank[s.stack[b].id] <= rank[s.stack[a].id]
    decreases b - a
  {
    if a < b {
      PathDescends(s, rank, a, b - 1);
      assert Linked(s.models, s.stack[b - 1], s.stack[b]);
      assert RefBelow(s.models, rank, s.models[s.stack[b - 1].id].particles[s.stack[b - 1].next - 1].term, rank[s.stack[b - 1].id]);
    }
  }

  /** A reference back to a model on the path rules out every ranking. */
  lemma CycleFound(s: Search, k: nat)
    requires Sound(s) && s.stack != [] && k < |s.models| && s.state[k].Checking?
    requires Refers(s.models, Top(s.stack).id, Top(s.stack).next, k)
    ensures !Acyclic(s.models)
  {
    var a :| 0 <= a < |s.stack| && s.stack[a].id == k;
    forall rank: seq<nat>
      ensures !Ranked(s.models, rank)
    {
      if Ranked(s.models, rank) {
        PathDescends(s, rank, a, |s.stack| - 1);
      }
    }
  }

  lemma AllChecked(s: Search)
    requires Sound(s) && forall i :: 0 <= i < |s.models| ==> s.state[i].Checked?
    ensures Acyclic(s.models)
  {
    forall i, j | 0 <= i < |s.models| && 0 <= j < |s.models[i].particles|
      ensures RefBelow(s.models, s.finish, s.models[i].particles[j].term, s.finish[i])
    {
      assert RefsDone(s.models, s.state, s.finish, i, |s.models[i].particles|, s.finish[i]);
      assert RefDone(s.models, s.state, s.finish, s.models[i].particles[j].term, s.finish[i]);
    }
    assert Ranked(s.models, s.finish);
  }

  // ----- the search itself -----

  lemma FewerUnchecked(state: seq<GraphState>, k: nat, c: GraphState)
    requires k < |state| && state[k].Unchecked? && !c.Unchecked?
    ensures |UncheckedSet(state[k := c])| < |UncheckedSet(state)|
  {
    assert UncheckedSet(state[k := c]) == UncheckedSet(state) - {k};
  }

  lemma SameUnchecked(state: seq<GraphState>, k: nat, c: GraphState)
    requires k < |state| && !state[k].Unchecked? && !c.Unchecked?
    ensures UncheckedSet(state[k := c]) == UncheckedSet(state)
  {
  }

  function Remaining(models: seq<ContentModel>, stack: seq<Frame>): int {
    if stack == [] || Top(stack).id >= |models| then 0 else |models[Top(stack).id].particles| - Top(stack).next
  }

  /** Each step discovers a model, finishes one, or advances the top frame. */
  ghost predicate Progress(models: seq<ContentModel>, state: seq<GraphState>, stack: seq<Frame>, state': seq<GraphState>, stack': seq<Frame>) {
    var u, u' := |UncheckedSet(state)|, |UncheckedSet(state')|;
    || u' < u
    || (u' == u && |stack'| < |stack|)
    || (u' == u && |stack'| == |stack| && 0 <= Remaining(models, stack') < Remaining(models, stack))
  }

  ghost predicate Kept(state: seq<GraphState>, state': seq<GraphState>) {
    && |state| == |state'|
    && forall i :: 0 <= i < |state| ==> (state[i].Checked? ==> state'[i].Checked?) && (state'[i].Unchecked? ==> state[i].Unchecked?)
  }

  /** What one turn leaves behind. */
  ghost predicate Turned(s: Search, s': Search) {
    match s case Search(models, state, _, stack, _) =>
      && Sound(s') && s'.models == models && Kept(state, s'.state)
      && Progress(models, state, stack, s'.state, s'.stack)
  }

  ghost function AfterPop(s: Search): (r: Search)
    requires Sound(s) && s.stack != [] && Top(s.stack).next == |s.models[Top(s.stack).id].particles|
    ensures Turned(s, r)
    ensures r.state == s.state[Top(s.stack).id := Checked] && r.stack == s.stack[..|s.stack| - 1]
  {
    var k := Top(s.stack).id;
    Popped(s);
    SameUnchecked(s.state, k, Checked);
    Search(s.models, s.state[k := Checked], s.finish[k := s.clock], s.stack[..|s.stack| - 1], s.clock + 1)
  }

  ghost function AfterPush(s: Search, k: nat): (r: Search)
    requires Sound(s) && k < |s.models| && s.state[k].Unchecked? && s.stack != []
    requires Top(s.stack).next < |s.models[Top(s.stack).id].particles|
    requires s.models[Top(s.stack).id].particles[Top(s.stack).next].term == ModelTerm(k)
    ensures Turned(s, r)
    ensures r.state == s.state[k := Checking] && r.stack == Advanced(s.stack) + [Frame(k, 0)]
  {
    Pushed(s, k);
    FewerUnchecked(s.state, k, Checking);
    s.(state := s.state[k := Checking], stack := Advanced(s.stack) + [Frame(k, 0)])
  }

  ghost function AfterSkip(s: Search): (r: Search)
    requires Sound(s) && s.stack != [] && Top(s.stack).next < |s.models[Top(s.stack).id].particles|
    requires RefDone(s.models, s.state, s.finish, s.models[Top(s.stack).id].particles[Top(s.stack).next].term, s.clock)
    ensures Turned(s, r)
    ensures r.state == s.state && r.stack == Advanced(s.stack)
  {
    Skipped(s);
    s.(stack := Advanced(s.stack))
  }

  /** One turn of the search loop. */
  method SearchStep(models: seq<ContentModel>, state: array<GraphState>, stack: seq<Frame>, ghost s: Search)
    returns (ok: bool, stack': seq<Frame>, ghost s': Search)
    requires Sound(s) && s.models == models && s.stack == stack && s.state == state[..] && stack != []
    modifies state
    ensures ok ==> Turned(s, s') && s'.stack == stack' && s'.state == state[..]
    ensures !ok ==> !Acyclic(models) && state[..] == old(state[..])
  {
    var top := Top(stack);
    var particles := models[top.id].particles;
    if top.next == |particles| {
      s' := AfterPop(s);
      state[top.id] := Checked;
      return true, stack[..|stack| - 1], s';
    }
    if particles[top.next].term.ModelTerm? {
      var child := particles[top.next].term.model;
      if child >= |models| {
        OutOfRange(models, top.id, top.next);
        return false, stack, s;
      }
      if state[child].Checking? {
        CycleFound(s, child);
        return false, stack, s;
      }
      if state[child].Unchecked? {
        s' := AfterPush(s, child);
        state[child] := Checking;
        return true, Advanced(stack) + [Frame(child, 0)], s';
      }
      CheckedRef(s, child);
    }
    return true, Advanced(stack), AfterSkip(s);
  }

  lemma CheckedRef(s: Search, k: nat)
    requires Sound(s) && k < |s.models| && s.state[k].Checked?
    ensures s.finish[k] < s.clock
  {
  }

  /** Searches from one root with an explicit stack until it is empty again. */
  method SearchFrom(models: seq<ContentModel>, state: array<GraphState>, root: nat, ghost before: Search)
    returns (ok: bool, ghost after: Search)
    requires Sound(before) && before.models == models && before.stack == [] && before.state == state[..]
    requires root < |models| && state[root].Unchecked?
    modifies state
    ensures ok ==> Sound(after) && after.models == models && after.stack == [] && after.state == state[..] && state[root].Checked?
    ensures Kept(old(state[..]), state[..])
    ensures !ok ==> !Acyclic(models)
  {
    state[root] := Checking;
    var stack := [Frame(root, 0)];
    Pushed(before, root);
    after := before.(state := before.state[root := Checking], stack := Advanced(before.stack) + [Frame(root, 0)]);
    while stack != []
      invariant Sound(after) && after.models == models && after.stack == stack && after.state == state[..]
      invariant Kept(old(state[..]), state[..]) && !state[root].Unchecked?
      decreases |UncheckedSet(state[..])|, |stack|, Remaining(models, stack)
    {
      ok, stack, after := SearchStep(models, state, stack, after);
      if !ok {
        return;
      }
    }
    return true, after;
  }

  lemma OutOfRange(models: seq<ContentModel>, i: nat, j: nat)
    requires i < |models| && j < |models[i].particles|
    requires models[i].particles[j].term.ModelTerm? && models[i].particles[j].term.model >= |models|
    ensures !Acyclic(models)
  {
    forall rank: seq<nat>
      ensures !Ranked(models, rank)
    {
      assert |rank| == |models| ==> !RefBelow(models, rank, models[i].particles[j].term, rank[i]);
    }
  }

  /** Accepts exactly the tables whose references are in range and acyclic. */
  method ValidateContentModelGraph(models: seq<ContentModel>) returns (ok: bool)
    ensures ok <==> Acyclic(models)
  {
    var state := new GraphState[|models|](_ => Unchecked);
    ghost var s := Search(models, state[..], seq(|models|, _ => 0), [], 0);
    for i := 0 to |models|
      invariant Sound(s) && s.models == models && s.stack == [] && s.state == state[..]
      invariant forall j :: 0 <= j < i ==> state[j].Checked?
    {
      if !state[i].Checked? {
        ok, s := SearchFrom(models, state, i, s);
        if !ok {
          return;
        }
      }
    }
    AllChecked(s);
    return true;
  }
}
