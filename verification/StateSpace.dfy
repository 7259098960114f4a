/** What a worklist can find: everything reached from a start by steps, and whether that
    is more than there is room for. */
module StateSpaces {
  import opened Schema
  import opened Ancestry

  type Steps<!S> = (S, S) -> bool

  ghost predicate Chain<S(!new)>(steps: Steps<S>, chain: seq<S>) {
    chain != [] && forall i, j :: 0 <= i < j < |chain| && j == i + 1 ==> steps(chain[i], chain[j])
  }

  ghost predicate ChainTo<S(!new)>(steps: Steps<S>, start: S, s: S, chain: seq<S>) {
    Chain(steps, chain) && chain[0] == start && chain[|chain| - 1] == s
  }

  ghost predicate Reached<S(!new)>(steps: Steps<S>, start: S, s: S) {
    exists chain: seq<S> :: ChainTo(steps, start, s, chain)
  }

  lemma StartReached<S(!new)>(steps: Steps<S>, start: S)
    ensures Reached(steps, start, start)
  {
    assert ChainTo(steps, start, start, [start]);
  }

  lemma StepReached<S(!new)>(steps: Steps<S>, start: S, s: S, s': S)
    requires Reached(steps, start, s) && steps(s, s')
    ensures Reached(steps, start, s')
  {
    var chain: seq<S> :| ChainTo(steps, start, s, chain);
    assert ChainTo(steps, start, s', chain + [s']);
  }

  ghost predicate AllReached<S(!new)>(steps: Steps<S>, start: S, states: seq<S>) {
    forall i :: 0 <= i < |states| ==> Reached(steps, start, states[i])
  }

  ghost predicate Different<S(!new)>(states: seq<S>) {
    forall i, j :: 0 <= i < j < |states| ==> states[i] != states[j]
  }

  /** There are more than n different states to be found. */
  ghost predicate MoreStates<S(!new)>(steps: Steps<S>, start: S, n: nat) {
    exists states: seq<S> :: Different(states) && AllReached(steps, start, states) && |states| > n
  }

  /** One more state than there is room for. */
  lemma OneMoreState<S(!new)>(steps: Steps<S>, start: S, states: seq<S>, s: S)
    requires Different(states) && AllReached(steps, start, states) && Reached(steps, start, s) && s !in states
    ensures MoreStates(steps, start, |states|)
  {
    var all := states + [s];
    assert Different(all) && AllReached(steps, start, all);
  }

  /** The start is found, and what a found state steps to is found. */
  ghost predicate Complete<S(!new)>(steps: Steps<S>, start: S, found: seq<S>) {
    start in found && forall s, s' :: s in found && steps(s, s') ==> s' in found
  }

  lemma {:induction false} ChainFound<S(!new)>(steps: Steps<S>, found: seq<S>, chain: seq<S>)
    requires Chain(steps, chain) && Complete(steps, chain[0], found)
    ensures chain[|chain| - 1] in found
    decreases |chain|
  {
    if |chain| > 1 {
      var n := |chain| - 1;
      ChainFound(steps, found, chain[..n]);
      assert steps(chain[n - 1], chain[n]);
    }
  }

  lemma ReachedFound<S(!new)>(steps: Steps<S>, start: S, found: seq<S>, s: S)
    requires Complete(steps, start, found) && Reached(steps, start, s)
    ensures s in found
  {
    var chain: seq<S> :| ChainTo(steps, start, s, chain);
    ChainFound(steps, found, chain);
  }

  /** A complete list leaves no room for more states. */
  lemma CompleteIsAll<S(!new)>(steps: Steps<S>, start: S, found: seq<S>, n: nat)
    requires Complete(steps, start, found) && |found| <= n
    ensures !MoreStates(steps, start, n)
  {
    forall states: seq<S> | Different(states) && AllReached(steps, start, states)
      ensures |states| <= n
    {
      DifferentFit(steps, start, found, states);
    }
  }

  lemma DifferentFit<S(!new)>(steps: Steps<S>, start: S, found: seq<S>, states: seq<S>)
    requires Complete(steps, start, found) && Different(states) && AllReached(steps, start, states)
    ensures |states| <= |found|
  {
    forall i | 0 <= i < |states|
      ensures exists k: nat :: k < |found| && found[k] == states[i]
    {
      assert Reached(steps, start, states[i]);
      ReachedFound(steps, start, found, states[i]);
    }
    var places := seq(|states|, i requires 0 <= i < |states| => PlaceOf(found, states[i]));
    forall i, j | 0 <= i < j < |places|
      ensures places[i] != places[j]
    {
      assert found[places[i]] == states[i] && found[places[j]] == states[j];
    }
    Pigeonhole(places, |found|);
  }

  ghost function PlaceOf<S(!new)>(found: seq<S>, s: S): (k: nat)
    ensures s in found ==> k < |found| && found[k] == s
  {
    if s in found then
      var k: nat :| k < |found| && found[k] == s; k
    else 0
  }

  /** State numbers fit 32 bits, whatever the configured limit. */
  function Room(limit: nat): nat {
    if limit <= MAX_UINT32 then limit else MAX_UINT32 + 1
  }
}
