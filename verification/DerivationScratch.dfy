/** Queries on the published index with reusable storage: a bounded memo, and marks that
    are told apart by generation instead of being cleared. */
module DerivationQueries {
  import opened Schema
  import opened Ancestry
  import opened TypeGraphs
  import opened DerivationForests
  import opened DerivationIndexes

  const MAX_MEMO_ENTRIES := 256

  type TypePair = (TypeId, TypeId)

  /** A published index; its identity is what scratch storage is bound to. */
  class DerivationIndex {
    const tables: IndexTables
    ghost const types: Types

    constructor (tables: IndexTables, ghost types: Types)
      requires Indexes(tables, types)
      ensures this.tables == tables && this.types == types && Valid()
    {
      this.tables, this.types := tables, types;
    }

    ghost predicate Valid() {
      Indexes(tables, types)
    }

    /** Whether base's interval holds derived: base is derived or above it. */
    predicate Holds(base: nat, derived: nat)
      requires Valid() && base < |types.simple| && derived < |types.simple|
      ensures Holds(base, derived) <==> Ancestor(SimpleParents(types), base, derived)
    {
      InInterval(tables.simple, base, derived)
    }
  }

  // ----- marks by generation -----

  ghost predicate Marked(seen: seq<Uint32>, generation: Uint32, i: nat) {
    i < |seen| && seen[i] == generation
  }

  function Unmarked(seen: seq<Uint32>, generation: Uint32): set<nat> {
    set i: nat | i < |seen| && seen[i] != generation
  }

  lemma MarkShrinks(seen: seq<Uint32>, generation: Uint32, i: nat)
    requires i < |seen| && seen[i] != generation
    ensures |Unmarked(seen[i := generation], generation)| < |Unmarked(seen, generation)|
  {
    assert Unmarked(seen[i := generation], generation) == Unmarked(seen, generation) - {i};
  }

  /** Everything marked is not above derived, and its members are marked or waiting. */
  ghost predicate Closing(t: Types, derived: nat, base: nat, seen: seq<Uint32>, generation: Uint32, stack: seq<nat>) {
    && |seen| == |t.simple|
    && (Marked(seen, generation, base) || base in stack)
    && (forall c :: c in stack ==> c < |t.simple| && Member(t, base, c))
    && (forall i: nat :: Marked(seen, generation, i) ==> Member(t, base, i) && !Ancestor(SimpleParents(t), i, derived))
    && (forall i: nat, m :: Marked(seen, generation, i) && HasMember(t, i, m) ==> Marked(seen, generation, m) || m in stack)
  }

  lemma ClosedAnswers(t: Types, derived: nat, base: nat, seen: seq<Uint32>, generation: Uint32)
    requires Closing(t, derived, base, seen, generation, [])
    ensures !SimpleDerived(t, derived, base)
  {
    var closed := iset i: nat | Marked(seen, generation, i);
    forall z | Member(t, base, z)
      ensures !Ancestor(SimpleParents(t), z, derived)
    {
      var path: seq<nat> :| PathTo(t, base, z, path);
      MemberClosed(t, base, closed, path);
    }
  }

  /** Dropping a candidate that was marked already. */
  lemma StillClosing(t: Types, derived: nat, base: nat, seen: seq<Uint32>, generation: Uint32, stack: seq<nat>)
    requires stack != [] && Closing(t, derived, base, seen, generation, stack)
    requires Marked(seen, generation, stack[|stack| - 1])
    ensures Closing(t, derived, base, seen, generation, stack[..|stack| - 1])
  {
    var rest := stack[..|stack| - 1];
    assert stack == rest + [stack[|stack| - 1]];
    assert forall c: nat :: c in rest ==> c in stack;
    forall i: nat, m: nat | Marked(seen, generation, i) && HasMember(t, i, m)
      ensures Marked(seen, generation, m) || m in rest
    {
      assert m in stack ==> m in rest || m == stack[|stack| - 1];
    }
  }

  /** Marking a candidate and queueing its members. */
  lemma MarkedClosing(t: Types, derived: nat, base: nat, seen: seq<Uint32>, generation: Uint32, stack: seq<nat>)
    requires Publishable(t) && stack != [] && Closing(t, derived, base, seen, generation, stack)
    requires stack[|stack| - 1] < |t.simple| && !Ancestor(SimpleParents(t), stack[|stack| - 1], derived)
    ensures var c := stack[|stack| - 1];
            Closing(t, derived, base, seen[c := generation], generation, stack[..|stack| - 1] + t.simple[c].members)
  {
    var c := stack[|stack| - 1];
    assert c in stack;
    var seen', stack' := seen[c := generation], stack[..|stack| - 1] + t.simple[c].members;
    assert forall x :: x in stack ==> x in stack' || x == c;
    forall x | x in stack'
      ensures x < |t.simple| && Member(t, base, x)
    {
      if x in t.simple[c].members {
        assert HasMember(t, c, x);
        MemberExtend(t, base, c, x);
      } else {
        assert x in stack;
      }
    }
    forall i: nat, m | Marked(seen', generation, i) && HasMember(t, i, m)
      ensures Marked(seen', generation, m) || m in stack'
    {
      if i != c {
        assert Marked(seen, generation, i);
      }
    }
  }

  class DerivationScratch {
    var owner: DerivationIndex?
    var memo: map<TypePair, Option<Mask>>
    var unionSeen: array<Uint32>
    var unionGeneration: Uint32

    constructor ()
      ensures Valid() && owner == null && fresh(unionSeen)
    {
      owner := null;
      memo := map[];
      unionSeen := new Uint32[0];
      unionGeneration := 0;
    }

    /** Every remembered answer is the answer, and no mark is from the future. */
    ghost predicate Valid()
      reads this, unionSeen
    {
      && |memo| <= MAX_MEMO_ENTRIES
      && (forall i :: 0 <= i < unionSeen.Length ==> unionSeen[i] <= unionGeneration)
      && (owner == null ==> memo == map[])
      && (owner != null ==>
            owner.Valid()
            && forall p :: p in memo ==> ValidType(owner.types, p.0) && memo[p] == Derivation(owner.types, p.0, p.1))
    }

    /** Forgets answers; storage larger than the bound is dropped. */
    method Reset(maxRetainedEntries: nat)
      requires Valid()
      modifies this
      ensures Valid() && owner == old(owner) && memo == map[]
      ensures unionSeen == old(unionSeen) || fresh(unionSeen)
      ensures unionSeen.Length <= maxRetainedEntries
    {
      if unionSeen.Length > maxRetainedEntries {
        unionSeen := new Uint32[0];
        unionGeneration := 0;
      }
      memo := map[];
    }

    /** Binds the storage to an index; what was known about another one is dropped. */
    method Bind(index: DerivationIndex)
      requires Valid() && index.Valid()
      modifies this
      ensures Valid() && owner == index
      ensures old(owner) == index ==> memo == old(memo) && unionSeen == old(unionSeen) && unionGeneration == old(unionGeneration)
      ensures unionSeen == old(unionSeen) || fresh(unionSeen)
    {
      if owner == index {
        return;
      }
      owner := index;
      memo := map[];
      unionSeen := new Uint32[0];
      unionGeneration := 0;
    }

    /** Starts a generation in which nothing is marked, also when the counter wraps. */
    method NextGeneration(n: nat)
      requires Valid()
      modifies this`unionSeen, this`unionGeneration, unionSeen
      ensures Valid() && owner == old(owner) && memo == old(memo)
      ensures unionSeen.Length == n && (unionSeen == old(unionSeen) || fresh(unionSeen))
      ensures forall i :: 0 <= i < n ==> unionSeen[i] < unionGeneration
    {
      if unionSeen.Length != n {
        unionSeen := new Uint32[n](_ => 0);
        unionGeneration := 0;
      }
      if unionGeneration == MAX_UINT32 {
        for i := 0 to unionSeen.Length
          modifies unionSeen
          invariant forall j :: 0 <= j < i ==> unionSeen[j] == 0
        {
          unionSeen[i] := 0;
        }
        unionGeneration := 1;
      } else {
        unionGeneration := unionGeneration + 1;
      }
    }

    /** Searches base and its members with the current generation's marks, all unset. */
    method SearchMembers(index: DerivationIndex, derived: nat, base: nat) returns (found: bool)
      requires index.Valid() && derived < |index.types.simple| && base < |index.types.simple|
      requires unionSeen.Length == |index.types.simple|
      requires forall i :: 0 <= i < unionSeen.Length ==> unionSeen[i] < unionGeneration
      modifies unionSeen
      ensures forall i :: 0 <= i < unionSeen.Length ==> unionSeen[i] <= unionGeneration
      ensures found <==> SimpleDerived(index.types, derived, base)
    {
      ghost var t := index.types;
      var generation := unionGeneration;
      var stack := [base];
      MemberSelf(t, base);
      while stack != []
        invariant forall i :: 0 <= i < unionSeen.Length ==> unionSeen[i] <= generation
        invariant Closing(t, derived, base, unionSeen[..], generation, stack)
        decreases |Unmarked(unionSeen[..], generation)|, |stack|
      {
        var candidate := stack[|stack| - 1];
        ghost var waiting := stack;
        stack := stack[..|stack| - 1];
        assert candidate in waiting;
        if unionSeen[candidate] == generation {
          StillClosing(t, derived, base, unionSeen[..], generation, waiting);
        } else {
          ghost var before := unionSeen[..];
          MarkShrinks(before, generation, candidate);
          unionSeen[candidate] := generation;
          if index.Holds(candidate, derived) {
            return true;
          }
          MarkedClosing(t, derived, base, before, generation, waiting);
          stack := stack + index.tables.members[candidate];
        }
      }
      ClosedAnswers(t, derived, base, unionSeen[..], generation);
      return false;
    }

    /** Whether base or a member of it is above derived. */
    method SimpleUnionDerivation(index: DerivationIndex, derived: nat, base: nat) returns (found: bool)
      requires Valid() && index.Valid() && derived < |index.types.simple| && base < |index.types.simple|
      modifies this`unionSeen, this`unionGeneration, unionSeen
      ensures Valid() && owner == old(owner) && memo == old(memo)
      ensures unionSeen == old(unionSeen) || fresh(unionSeen)
      ensures found <==> SimpleDerived(index.types, derived, base)
    {
      NextGeneration(|index.tables.simple.ins|);
      found := SearchMembers(index, derived, base);
    }

    method SimpleDerivationQuery(index: DerivationIndex, derived: nat, base: nat) returns (r: Option<Mask>)
      requires Valid() && index.Valid()
      modifies this`unionSeen, this`unionGeneration, unionSeen
      ensures Valid() && owner == old(owner) && memo == old(memo)
      ensures unionSeen == old(unionSeen) || fresh(unionSeen)
      ensures r == SimpleDerivation(index.types, derived, base)
    {
      if derived == base {
        return Some({});
      }
      if derived >= |index.tables.simple.ins| || base >= |index.tables.simple.ins| {
        return None;
      }
      MemberSelf(index.types, base);
      if index.Holds(base, derived) {
        return Some({Restriction});
      }
      if index.tables.members[base] == [] {
        NoMembersDerived(index.types, derived, base);
        return None;
      }
      var found := SimpleUnionDerivation(index, derived, base);
      return if found then Some({Restriction}) else None;
    }

    /** Answers a question that has not been remembered. */
    method Answer(index: DerivationIndex, derived: TypeId, base: TypeId) returns (r: Option<Mask>)
      requires Valid() && index.Valid() && ValidType(index.types, derived) && derived != base
      modifies this`unionSeen, this`unionGeneration, unionSeen
      ensures Valid() && owner == old(owner) && memo == old(memo)
      ensures unionSeen == old(unionSeen) || fresh(unionSeen)
      ensures r == Derivation(index.types, derived, base)
    {
      var x := index.tables;
      if derived.ComplexId? {
        ComplexQueriesRight(x, index.types, derived.complex, if base.ComplexId? then base.complex else 0);
        ChainFactsRight(x, index.types, derived.complex);
      }
      if base == ComplexId(x.anyType) {
        if derived.ComplexId? {
          return AnyTypeQuery(x, derived.complex);
        }
        return Some({Restriction});
      }
      match (derived, base) {
        case (ComplexId(d), ComplexId(b)) =>
          return ComplexQuery(x, d, b);
        case (ComplexId(d), SimpleId(b)) =>
          if x.simpleBase[d].None? {
            return None;
          }
          r := SimpleDerivationQuery(index, x.simpleBase[d].value, b);
          return match r case None => None case Some(mask) => Some(x.simpleMask[d] + mask);
        case (SimpleId(d), SimpleId(b)) =>
          r := SimpleDerivationQuery(index, d, b);
        case _ =>
          return None;
      }
    }

    /** The published answer: remembered or not, after any history of queries, resets and
        rebinding, it is how derived derives from base. */
    method DerivationOf(index: DerivationIndex, derived: TypeId, base: TypeId) returns (r: Option<Mask>)
      requires Valid() && index.Valid() && ValidType(index.types, derived)
      modifies this, unionSeen
      ensures Valid() && owner == index
      ensures unionSeen == old(unionSeen) || fresh(unionSeen)
      ensures r == Derivation(index.types, derived, base)
    {
      Bind(index);
      if derived == base {
        return Some({});
      }
      if (derived, base) in memo {
        return memo[(derived, base)];
      }
      r := Answer(index, derived, base);
      if |memo| < MAX_MEMO_ENTRIES {
        memo := memo[(derived, base) := r];
      }
    }
  }

  lemma NoMembersDerived(t: Types, d: nat, b: nat)
    requires b < |t.simple| && t.simple[b].members == [] && !Ancestor(SimpleParents(t), b, d)
    ensures !SimpleDerived(t, d, b)
  {
    var closed := iset{b};
    forall z | Member(t, b, z)
      ensures z == b
    {
      var path: seq<nat> :| PathTo(t, b, z, path);
      MemberClosed(t, b, closed, path);
    }
  }

  lemma ChainFactsRight(x: IndexTables, t: Types, d: nat)
    requires Indexes(x, t) && d < |t.complex|
    ensures x.simpleBase[d] == SimpleTop(t, d) && x.simpleMask[d] == MaskOf(AllSteps(t, d))
  {
    assert ComplexFacts(x.extensions[d], x.restricts[d], x.simpleBase[d], x.simpleMask[d]) == FactsOf(t, d);
  }
}
