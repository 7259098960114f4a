/** What the compiler remembers about list types while its table of simple types changes:
    placeholders are appended first and overwritten once their type is compiled. */
module SimpleTypeTables {
  import opened Schema
  import opened TypeGraphs
  import opened ListReachabilities

  // ----- memory across a change of the table -----

  /** The two tables say the same about v, as far as lists are concerned. */
  predicate Alike(types: Simples, types': Simples, v: nat) {
    && v < |types| && v < |types'| && types'[v].variety == types[v].variety
    && forall m | m in types[v].members + types'[v].members :: UnionStep(types', v, m) <==> UnionStep(types, v, m)
  }

  lemma AlikeSteps(types: Simples, types': Simples, v: nat, m: nat)
    requires Alike(types, types', v)
    ensures UnionStep(types', v, m) <==> UnionStep(types, v, m)
  {
    if UnionStep(types, v, m) || UnionStep(types', v, m) {
      assert m in types[v].members + types'[v].members;
    }
  }

  lemma {:induction false} PathKept(types: Simples, types': Simples, v: nat, path: seq<nat>)
    requires forall m :: Below(types, v, m) ==> Alike(types, types', m)
    requires UnionPath(types', path) && path[0] == v
    ensures UnionPath(types, path)
    decreases |path|
  {
    if |path| > 1 {
      var n := |path| - 1;
      PathKept(types, types', v, path[..n]);
      assert PathBelow(types, v, path[n - 1], path[..n]);
      assert UnionStep(types', path[n - 1], path[n]);
      AlikeSteps(types, types', path[n - 1], path[n]);
      forall i, j | 0 <= i < j < |path| && j == i + 1
        ensures UnionStep(types, path[i], path[j])
      {
        if j < n {
          assert UnionStep(types, path[..n][i], path[..n][j]);
        }
      }
    }
  }

  lemma PathCarried(types: Simples, types': Simples, v: nat, path: seq<nat>)
    requires forall m :: Below(types, v, m) ==> Alike(types, types', m)
    requires UnionPath(types, path) && path[0] == v
    ensures UnionPath(types', path)
  {
    forall i, j | 0 <= i < j < |path| && j == i + 1
      ensures UnionStep(types', path[i], path[j])
    {
      assert UnionPath(types, path[..i + 1]) && path[..i + 1][0] == v;
      assert PathBelow(types, v, path[i], path[..i + 1]);
      assert UnionStep(types, path[i], path[j]);
      AlikeSteps(types, types', path[i], path[j]);
    }
  }

  lemma ReachesKept(types: Simples, types': Simples, v: nat)
    requires forall m :: Below(types, v, m) ==> Alike(types, types', m)
    ensures ReachesList(types', v) <==> ReachesList(types, v)
  {
    if ReachesList(types', v) {
      var path: seq<nat> :| ListPath(types', v, path);
      PathKept(types, types', v, path);
      assert PathBelow(types, v, path[|path| - 1], path);
      assert Alike(types, types', path[|path| - 1]);
      assert ListPath(types, v, path);
    }
    if ReachesList(types, v) {
      var path: seq<nat> :| ListPath(types, v, path);
      PathCarried(types, types', v, path);
      assert PathBelow(types, v, path[|path| - 1], path);
      assert Alike(types, types', path[|path| - 1]);
      assert ListPath(types', v, path);
    }
  }

  /** Whatever else changes: a table that says the same about everything below a checked
      node leaves the memory right. */
  lemma RememberedKept(types: Simples, types': Simples, state: seq<ReachState>, reaches: seq<bool>)
    requires Remembered(types, state, reaches) && |state| <= |types'|
    requires forall v, m :: 0 <= v < |state| && state[v].Checked? && Below(types, v, m) ==> Alike(types, types', m)
    ensures Remembered(types', state, reaches)
  {
    forall v | 0 <= v < |state| && state[v].Checked?
      ensures ReachesList(types', v) <==> ReachesList(types, v)
    {
      ReachesKept(types, types', v);
    }
  }

  // ----- exactly when memory survives -----

  /** A later table: types are appended, and placeholders may become anything. */
  ghost predicate Later(types: Simples, pending: set<nat>, types': Simples) {
    && |types| <= |types'|
    && forall v: nat :: v < |types| && v !in pending ==> types'[v] == types[v]
  }

  /** A compiled type whose members exist. */
  predicate Settled(types: Simples, pending: set<nat>, v: nat) {
    && v < |types| && v !in pending
    && forall m | m in MembersOf(types, v) :: m < |types|
  }

  /** Nothing below v can still change. */
  ghost predicate SettledBelow(types: Simples, pending: set<nat>, v: nat) {
    forall m :: Below(types, v, m) ==> Settled(types, pending, m)
  }

  lemma SettledAlike(types: Simples, pending: set<nat>, types': Simples, v: nat)
    requires Later(types, pending, types') && Settled(types, pending, v)
    ensures Alike(types, types', v)
  {
    forall m | m in types[v].members + types'[v].members
      ensures UnionStep(types', v, m) <==> UnionStep(types, v, m)
    {
      assert m in types[v].members;
      assert types[v].variety.Union? ==> m in MembersOf(types, v);
    }
  }

  /** A path to a list leads through unions only, and placeholders are none. */
  lemma ListPathStays(types: Simples, pending: set<nat>, types': Simples, v: nat)
    requires Later(types, pending, types') && ReachesList(types, v)
    requires forall p :: p in pending && p < |types| ==> types[p].variety.Atomic?
    ensures ReachesList(types', v)
  {
    var path: seq<nat> :| ListPath(types, v, path);
    forall i, j | 0 <= i < j < |path| && j == i + 1
      ensures UnionStep(types', path[i], path[j])
    {
      assert UnionStep(types, path[i], path[j]);
    }
    assert ListPath(types', v, path);
  }

  /** A table in which something below v has become a list. */
  lemma UnsettledChanges(types: Simples, pending: set<nat>, v: nat, m: nat) returns (types': Simples)
    requires forall p :: p in pending && p < |types| ==> types[p].variety.Atomic?
    requires v < |types| && Below(types, v, m) && !Settled(types, pending, m)
    ensures Later(types, pending, types') && ReachesList(types', v)
  {
    var path: seq<nat> :| PathBelow(types, v, m, path);
    BelowExists(types, v, m, path);
    var list := SimpleType([], None, List);
    if m in pending {
      types' := types[m := list];
      forall i, j | 0 <= i < j < |path| && j == i + 1
        ensures UnionStep(types', path[i], path[j])
      {
        assert UnionStep(types, path[i], path[j]);
      }
      assert ListPath(types', v, path);
    } else {
      var k :| k in MembersOf(types, m) && k >= |types|;
      types' := types + seq(k + 1 - |types|, _ => list);
      var longer := path + [k];
      forall i, j | 0 <= i < j < |longer| && j == i + 1
        ensures UnionStep(types', longer[i], longer[j])
      {
        if j < |path| {
          assert UnionStep(types, path[i], path[j]);
        }
      }
      assert ListPath(types', v, longer);
    }
  }

  lemma BelowExists(types: Simples, v: nat, m: nat, path: seq<nat>)
    requires v < |types| && PathBelow(types, v, m, path)
    ensures m < |types|
  {
    if |path| > 1 {
      assert UnionStep(types, path[|path| - 2], path[|path| - 1]);
    }
  }

  /** Memory survives every later table exactly when nothing below a node that is
      remembered to reach no list can still change. */
  lemma SurvivesIff(types: Simples, pending: set<nat>, state: seq<ReachState>, reaches: seq<bool>)
    requires Remembered(types, state, reaches)
    requires forall p :: p in pending && p < |types| ==> types[p].variety.Atomic?
    ensures (forall types' :: Later(types, pending, types') ==> Remembered(types', state, reaches)) <==>
            (forall v: nat :: v < |state| && state[v].Checked? && !reaches[v] ==> SettledBelow(types, pending, v))
  {
    if forall v: nat :: v < |state| && state[v].Checked? && !reaches[v] ==> SettledBelow(types, pending, v) {
      forall types' | Later(types, pending, types')
        ensures Remembered(types', state, reaches)
      {
        SettledSurvives(types, pending, state, reaches, types');
      }
    }
    if v: nat :| v < |state| && state[v].Checked? && !reaches[v] && !SettledBelow(types, pending, v) {
      var m :| Below(types, v, m) && !Settled(types, pending, m);
      var types' := UnsettledChanges(types, pending, v, m);
      assert !Remembered(types', state, reaches);
    }
  }

  lemma SettledSurvives(types: Simples, pending: set<nat>, state: seq<ReachState>, reaches: seq<bool>, types': Simples)
    requires Remembered(types, state, reaches) && Later(types, pending, types')
    requires forall p :: p in pending && p < |types| ==> types[p].variety.Atomic?
    requires forall v: nat :: v < |state| && state[v].Checked? && !reaches[v] ==> SettledBelow(types, pending, v)
    ensures Remembered(types', state, reaches)
  {
    forall v: nat | v < |state| && state[v].Checked?
      ensures reaches[v] <==> ReachesList(types', v)
    {
      if reaches[v] {
        ListPathStays(types, pending, types', v);
      } else {
        forall m | Below(types, v, m)
          ensures Alike(types, types', m)
        {
          assert Settled(types, pending, m);
          SettledAlike(types, pending, types', m);
        }
        ReachesKept(types, types', v);
      }
    }
  }

  // ----- how the compiler keeps it so -----

  /** A type while it is being compiled. */
  const PLACEHOLDER := SimpleType([], None, Atomic)

  datatype Reference = CyclicReference | KnownType(id: nat) | NotCompiled

  /** The members of compiled types are compiled. */
  ghost predicate Closed(types: Simples, pending: set<nat>) {
    && (forall p :: p in pending ==> p < |types| && types[p] == PLACEHOLDER)
    && forall v: nat :: v < |types| && v !in pending ==> MembersCompiled(types, pending, types[v])
  }

  predicate MembersCompiled(types: Simples, pending: set<nat>, st: SimpleType) {
    forall m | m in st.members :: m < |types| && m !in pending
  }

  lemma {:induction false} ClosedSettles(types: Simples, pending: set<nat>, v: nat, path: seq<nat>)
    requires Closed(types, pending) && v < |types| && v !in pending && UnionPath(types, path) && path[0] == v
    ensures Settled(types, pending, path[|path| - 1])
    decreases |path|
  {
    if |path| > 1 {
      var n := |path| - 1;
      ClosedSettles(types, pending, v, path[..n]);
      assert UnionStep(types, path[n - 1], path[n]);
    }
    assert MembersCompiled(types, pending, types[path[|path| - 1]]);
  }

  lemma ClosedIsSettled(types: Simples, pending: set<nat>, v: nat)
    requires Closed(types, pending) && v < |types| && v !in pending
    ensures SettledBelow(types, pending, v)
  {
    forall m | Below(types, v, m)
      ensures Settled(types, pending, m)
    {
      var path: seq<nat> :| PathBelow(types, v, m, path);
      ClosedSettles(types, pending, v, path);
    }
  }

  /** The compiler's simple types, the names it has given out and what it remembers. */
  class SimpleTypeTable {
    var types: Simples
    var done: map<QName, nat>
    var compiling: set<QName>
    const memory: ListReachability
    ghost var pending: set<nat>

    constructor (types: Simples)
      requires Closed(types, {})
      ensures Valid() && this.types == types && done == map[] && compiling == {} && pending == {}
      ensures fresh(memory)
    {
      this.types, done, compiling, pending := types, map[], {}, {};
      memory := new ListReachability();
    }

    /** Only compiled types are remembered, and a name given out for a type that is not
        compiled yet is marked. */
    ghost predicate Valid()
      reads this, memory
    {
      && Closed(types, pending) && Remembered(types, memory.state, memory.reaches)
      && (forall v: nat :: v < |memory.state| && memory.state[v].Checked? ==> v !in pending)
      && (forall q :: q in done ==> done[q] < |types| && (done[q] in pending ==> q in compiling))
    }

    /** In every state the condition for surviving all later tables holds. */
    lemma MemorySurvives(types': Simples)
      requires Valid() && Later(types, pending, types')
      ensures Remembered(types', memory.state, memory.reaches)
    {
      forall v: nat | v < |memory.state| && memory.state[v].Checked? && !memory.reaches[v]
        ensures SettledBelow(types, pending, v)
      {
        ClosedIsSettled(types, pending, v);
      }
      SettledSurvives(types, pending, memory.state, memory.reaches, types');
    }

    /** A name under compilation is refused; any other known name has its type. */
    method LookUp(q: QName) returns (r: Reference)
      requires Valid()
      ensures r.CyclicReference? <==> q in compiling
      ensures r.KnownType? ==> r.id < |types| && r.id !in pending && q in done && done[q] == r.id
      ensures r.NotCompiled? <==> q !in compiling && q !in done
    {
      if q in compiling {
        return CyclicReference;
      }
      return if q in done then KnownType(done[q]) else NotCompiled;
    }

    /** Appends the placeholder of an anonymous type. */
    method Begin() returns (id: nat)
      requires Valid()
      modifies this
      ensures Valid() && id == |old(types)| && types == old(types) + [PLACEHOLDER]
      ensures pending == old(pending) + {id} && done == old(done) && compiling == old(compiling)
    {
      id := |types|;
      var types' := types + [PLACEHOLDER];
      MemorySurvives(types');
      forall v: nat | v < |types'| && v !in pending + {id}
        ensures MembersCompiled(types', pending + {id}, types'[v])
      {
        assert MembersCompiled(types, pending, types[v]);
      }
      types, pending := types', pending + {id};
    }

    /** Appends the placeholder of a global type and gives out its name. */
    method BeginNamed(q: QName) returns (id: nat)
      requires Valid() && q !in done && q !in compiling
      modifies this
      ensures Valid() && id == |old(types)| && types == old(types) + [PLACEHOLDER]
      ensures pending == old(pending) + {id}
      ensures done == old(done)[q := id] && compiling == old(compiling) + {q}
    {
      id := Begin();
      done, compiling := done[q := id], compiling + {q};
    }

    /** Overwrites a placeholder with a type built from compiled types. */
    method Complete(id: nat, st: SimpleType)
      requires Valid() && id in pending && MembersCompiled(types, pending, st)
      modifies this
      ensures Valid() && types == old(types)[id := st] && pending == old(pending) - {id}
      ensures done == old(done) && compiling == old(compiling)
    {
      var types' := types[id := st];
      MemorySurvives(types');
      forall v: nat | v < |types'| && v !in pending - {id}
        ensures MembersCompiled(types', pending - {id}, types'[v])
      {
        assert v != id ==> MembersCompiled(types, pending, types[v]);
      }
      types, pending := types', pending - {id};
    }

    /** Gives up on a type: its placeholder stays. */
    method Abandon(id: nat)
      requires Valid() && id in pending
      modifies this
      ensures Valid() && types == old(types) && pending == old(pending) - {id}
      ensures done == old(done) && compiling == old(compiling)
    {
      forall v: nat | v < |types| && v !in pending - {id}
        ensures MembersCompiled(types, pending - {id}, types[v])
      {
        assert v != id ==> MembersCompiled(types, pending, types[v]);
      }
      pending := pending - {id};
    }

    /** A name whose type is no longer being compiled. */
    method Release(q: QName)
      requires Valid() && (q in done ==> done[q] !in pending)
      modifies this
      ensures Valid() && types == old(types) && pending == old(pending) && done == old(done)
      ensures compiling == old(compiling) - {q}
    {
      compiling := compiling - {q};
    }

    /** Whether the item type of a list reaches a list: right after any history of the table. */
    method ItemReachesList(id: nat) returns (r: bool)
      requires Valid() && id < |types| && id !in pending
      modifies memory
      ensures Valid()
      ensures r <==> ReachesList(types, id)
    {
      r := memory.ReachesListFrom(types, id);
      ClosedIsSettled(types, pending, id);
    }
  }
}
