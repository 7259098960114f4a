/** The imperative builder: it visits a content model and appends positions,
    follow entries and counters to its own tables. */
module DfaBuilding {
  import opened Schema
  import opened Languages
  import opened ContentLanguage
  import opened PositionAutomaton
  import opened AutomatonConcat
  import opened AutomatonRepeat
  import opened PositionBuilder

  // ----- the edges one pass of a nested loop has added -----

  ghost function EdgesTo(pos: int, guards: seq<Guard>, actions: seq<Action>, firsts: seq<Entry>): set<Edge> {
    set head | head in firsts :: Edge(pos, ComposeEntry(guards, actions, head))
  }

  lemma EdgesToGrow(pos: int, guards: seq<Guard>, actions: seq<Action>, firsts: seq<Entry>, j: nat)
    requires j < |firsts|
    ensures EdgesTo(pos, guards, actions, firsts[..j + 1]) ==
            EdgesTo(pos, guards, actions, firsts[..j]) + {Edge(pos, ComposeEntry(guards, actions, firsts[j]))}
  {
    assert firsts[..j + 1] == firsts[..j] + [firsts[j]];
  }

  lemma BridgesGrow(lasts: seq<Entry>, firsts: seq<Entry>, i: nat)
    requires i < |lasts|
    ensures Bridges(Elements(lasts[..i + 1]), Elements(firsts)) ==
            Bridges(Elements(lasts[..i]), Elements(firsts))
            + EdgesTo(lasts[i].pos, lasts[i].guards, lasts[i].actions, firsts)
  {
    assert lasts[..i + 1] == lasts[..i] + [lasts[i]];
    assert Elements(lasts[..i + 1]) == Elements(lasts[..i]) + {lasts[i]};
    var pass := EdgesTo(lasts[i].pos, lasts[i].guards, lasts[i].actions, firsts);
    assert pass == set head | head in Elements(firsts) :: BridgeEdge(lasts[i], head) by {
      assert forall head :: head in firsts ==> BridgeEdge(lasts[i], head) in pass;
    }
  }

  lemma LoopsGrow(lasts: seq<Entry>, firsts: seq<Entry>, o: Occurrence, slot: Option<nat>, resets: seq<Action>, i: nat)
    requires i < |lasts| && Loops(o)
    ensures LoopEdges(Elements(lasts[..i + 1]), Elements(firsts), o, slot, resets) ==
            LoopEdges(Elements(lasts[..i]), Elements(firsts), o, slot, resets)
            + EdgesTo(lasts[i].pos, lasts[i].guards + LoopGuards(o, slot),
                      lasts[i].actions + RoundActions(slot) + resets, firsts)
  {
    assert lasts[..i + 1] == lasts[..i] + [lasts[i]];
    assert Elements(lasts[..i + 1]) == Elements(lasts[..i]) + {lasts[i]};
    var pass := EdgesTo(lasts[i].pos, lasts[i].guards + LoopGuards(o, slot),
                        lasts[i].actions + RoundActions(slot) + resets, firsts);
    assert pass == set head | head in Elements(firsts) :: LoopEdge(lasts[i], head, o, slot, resets) by {
      assert forall head :: head in firsts ==> LoopEdge(lasts[i], head, o, slot, resets) in pass;
    }
  }

  /** The particles of a model as the builder reads them. */
  function ScopedParticles(m: ContentModel, scope: LimitScope, limits: seq<Uint32>): (r: seq<Particle>)
    ensures |r| == |m.particles|
  {
    if scope.RootScope? then LimitParticles(m.particles, limits) else m.particles
  }

  lemma SameBeforeEarlier(a: FollowTable, b: FollowTable, lo: int, hi: int)
    requires SameBefore(a, b, hi) && lo <= hi
    ensures SameBefore(a, b, lo)
  {
  }

  lemma LimitKeepsRefs(t: Tables, m: ContentModel, limits: seq<Uint32>)
    requires ValidModel(t, m)
    ensures ValidParticles(t, LimitParticles(m.particles, limits))
    ensures RefsInRange(t.models, LimitParticles(m.particles, limits))
    ensures RefsInRange(t.models, m.particles)
    ensures forall i :: 0 <= i < |m.particles| ==> LimitParticles(m.particles, limits)[i].term == m.particles[i].term
  {
  }

  ghost function ScopedLang(t: Tables, m: ContentModel, scope: LimitScope, limits: seq<Uint32>): Lang
    requires Acyclic(t.models) && ValidModel(t, m)
  {
    LimitKeepsRefs(t, m, limits);
    GroupLang(t, m.(particles := ScopedParticles(m, scope, limits)))
  }

  /** One more particle of a sequence or choice. */
  lemma OneMoreParticle(t: Tables, ps: seq<Particle>, i: nat)
    requires Acyclic(t.models) && RefsInRange(t.models, ps) && i < |ps|
    ensures RefsInRange(t.models, ps[..i]) && RefsInRange(t.models, ps[..i + 1])
    ensures SequenceLang(t, ps[..i + 1]) == Cat(SequenceLang(t, ps[..i]), ParticleLang(t, ps[i]))
    ensures ChoiceLang(t, ps[..i + 1]) == ChoiceLang(t, ps[..i]) + ParticleLang(t, ps[i])
  {
    assert ps[..i + 1][..i] == ps[..i];
  }

  /** A model is its body repeated; the empty model's inactive range does no harm. */
  lemma ScopedIsRepeat(t: Tables, m: ContentModel, scope: LimitScope, limits: seq<Uint32>)
    requires Acyclic(t.models) && ValidModel(t, m) && !m.kind.AnyModel?
    requires RefsInRange(t.models, ScopedParticles(m, scope, limits))
    ensures ScopedLang(t, m, scope, limits) == Rep(BodyLang(t, m.kind, ScopedParticles(m, scope, limits)), m.occurs)
  {
    if m.kind.EmptyModel? {
      RepZero(EPSILON, m.occurs);
      assert BodyLang(t, m.kind, ScopedParticles(m, scope, limits)) == EPSILON;
    }
  }

  // ----- what visits leave behind -----

  /** The builder's tables at one moment. */
  datatype Snapshot = Snapshot(t: Tables, follow: FollowTable, positions: seq<Particle>, counters: nat)

  /** Tables only grow, and what was built before `lo` is not disturbed. */
  ghost predicate Grew(s0: Snapshot, s: Snapshot, lo: int) {
    && s.t == s0.t && Extends(s0.positions, s.positions) && s0.counters <= s.counters
    && SameBefore(s0.follow, s.follow, lo)
  }

  ghost predicate ReadIn(s: Snapshot, part: Part) {
    part.t == s.t && part.labels == Labels(s.positions) && part.follow == s.follow
  }

  /** A visit leaves a part made of the new positions and counters, for the language l
      and with the given leaves. */
  ghost predicate Visited(s0: Snapshot, s: Snapshot, r: Outcome<DfaNode>, part: Part, l: Lang, leaves: seq<Term>) {
    match s case Snapshot(_, _, positions, counters) =>
      && Grew(s0, s, |s0.positions|)
      && (r.Ok? ==>
            && ReadIn(s, part) && part.node == r.value && part.l == l
            && part.s == Span(|s0.positions|, |positions|, s0.counters, counters)
            && Labels(positions) == Labels(s0.positions) + leaves)
  }

  /** A step adds one more visit to the part a that was built last. */
  ghost predicate Stepped(s0: Snapshot, s: Snapshot, a: Part, r: Outcome<DfaNode>, part: Part, l: Lang, leaves: seq<Term>) {
    match s case Snapshot(_, _, positions, counters) =>
      && Grew(s0, s, a.s.lo)
      && (r.Ok? ==>
            && ReadIn(s, part) && part.node == r.value && part.l == l
            && part.s == Span(a.s.lo, |positions|, a.s.firstSlot, counters)
            && Labels(positions) == Labels(s0.positions) + leaves)
  }

  lemma StepVisited(s0: Snapshot, s1: Snapshot, s2: Snapshot, a: Part, l1: Lang, leaves: seq<Term>,
                    r: Outcome<DfaNode>, part: Part, l2: Lang, more: seq<Term>)
    requires Visited(s0, s1, Ok(a.node), a, l1, leaves) && Stepped(s1, s2, a, r, part, l2, more)
    ensures Visited(s0, s2, r, part, l2, leaves + more)
  {
    ExtendsTrans(s0.positions, s1.positions, s2.positions);
  }

  /** Repeating the part that a visit left changes its language only. */
  lemma RepeatVisited(s0: Snapshot, s1: Snapshot, s2: Snapshot, c: Part, l: Lang, leaves: seq<Term>, node: DfaNode, part: Part, l2: Lang)
    requires Visited(s0, s1, Ok(c.node), c, l, leaves)
    requires s2.t == s1.t && s2.positions == s1.positions && s1.counters <= s2.counters && SameBefore(s1.follow, s2.follow, c.s.lo)
    requires ReadIn(s2, part) && part.node == node && part.s == c.s.(endSlot := s2.counters) && part.l == l2
    ensures Visited(s0, s2, Ok(node), part, l2, leaves)
  {
  }

  /** Joining a newly visited part to the part built last is a step. */
  lemma JoinStepped(s0: Snapshot, s1: Snapshot, s2: Snapshot, a: Part, c: Part, lc: Lang, leaf: seq<Term>, part: Part)
    requires Visited(s0, s1, Ok(c.node), c, lc, leaf) && a.s.lo <= a.s.hi == |s0.positions| && a.s.endSlot == s0.counters
    requires s2 == s1.(follow := s2.follow) && SameBefore(s1.follow, s2.follow, a.s.lo)
    requires ReadIn(s2, part) && part.s == JoinSpans(a.s, c.s)
    ensures Stepped(s0, s2, a, Ok(part.node), part, part.l, leaf)
  {
    SameBeforeEarlier(s0.follow, s1.follow, a.s.lo, a.s.hi);
    SameBeforeTrans(s0.follow, s1.follow, s2.follow, a.s.lo, a.s.lo);
  }

  lemma FailedVisited(s0: Snapshot, s1: Snapshot, s2: Snapshot, a: Part, l1: Lang, leaves: seq<Term>,
                      r: Outcome<DfaNode>, c: Part, lc: Lang, leaf: seq<Term>, l: Lang, more: seq<Term>)
    requires Visited(s0, s1, Ok(a.node), a, l1, leaves) && Visited(s1, s2, r, c, lc, leaf) && r.Err?
    ensures Visited(s0, s2, r, c, l, more)
  {
    ExtendsTrans(s0.positions, s1.positions, s2.positions);
    SameBeforeTrans(s0.follow, s1.follow, s2.follow, |s0.positions|, |s1.positions|);
  }

  lemma LeafVisited(s0: Snapshot, s: Snapshot, p: Particle, part: Part, l: Lang)
    requires s == s0.(positions := s0.positions + [p]) && ReadIn(s, part) && part.l == l
    requires part.s == Span(|s0.positions|, |s.positions|, s0.counters, s0.counters)
    ensures Visited(s0, s, Ok(part.node), part, l, [p.term])
  {
    assert Labels(s.positions) == Labels(s0.positions) + [p.term];
  }

  lemma NothingVisited(s: Snapshot, nullable: bool, part: Part, l: Lang)
    requires part == EmptyPart(s.t, Labels(s.positions), s.follow, Span(|s.positions|, |s.positions|, s.counters, s.counters), nullable)
    requires l == part.l
    ensures Visited(s, s, Ok(DfaNode([], [], [], nullable)), part, l, [])
  {
    assert Labels(s.positions) + [] == Labels(s.positions);
  }

  class DfaBuilder {
    const t: Tables
    const limits: seq<Uint32>
    var follow: FollowTable
    var positions: seq<Particle>
    var counters: nat

    constructor (t: Tables, limits: seq<Uint32>)
      ensures this.t == t && this.limits == limits
      ensures follow == map[] && positions == [] && counters == 0
    {
      this.t, this.limits := t, limits;
      follow, positions, counters := map[], [], 0;
    }

    ghost function Now(): Snapshot
      reads this
    {
      Snapshot(t, follow, positions, counters)
    }

    /** Follow entries belong to positions that exist, and positions hold direct terms. */
    ghost predicate Valid()
      reads this
    {
      && (forall p :: p in follow ==> 0 <= p < |positions|)
      && (forall i :: 0 <= i < |positions| ==> ValidTerm(t, positions[i].term))
    }

    method NewCounter() returns (slot: nat)
      modifies this`counters
      ensures slot == old(counters) && counters == slot + 1
    {
      slot := counters;
      counters := counters + 1;
    }

    method AddFollow(pos: int, entry: Entry)
      modifies this`follow
      ensures Edges(follow) == Edges(old(follow)) + {Edge(pos, entry)}
      ensures forall p :: p != pos ==> (p in follow <==> p in old(follow)) && (p in follow ==> follow[p] == old(follow)[p])
      ensures pos in follow
    {
      var before := if pos in follow then follow[pos] else [];
      var entries := NormalizeEntries(before + [entry]);
      assert forall e :: e in entries <==> e in Elements(entries);
      assert forall e :: e in before + [entry] <==> e in Elements(before + [entry]);
      follow := follow[pos := entries];
    }

    /** One tail against every first entry: the inner loop of concatenation and repetition. */
    method AddFollows(pos: int, guards: seq<Guard>, actions: seq<Action>, firsts: seq<Entry>)
      requires Valid() && 0 <= pos < |positions|
      modifies this`follow
      ensures Valid() && SameBefore(old(follow), follow, pos)
      ensures Edges(follow) == Edges(old(follow)) + EdgesTo(pos, guards, actions, firsts)
    {
      for j := 0 to |firsts|
        invariant Valid() && SameBefore(old(follow), follow, pos)
        invariant Edges(follow) == Edges(old(follow)) + EdgesTo(pos, guards, actions, firsts[..j])
      {
        AddFollow(pos, ComposeEntry(guards, actions, firsts[j]));
        EdgesToGrow(pos, guards, actions, firsts, j);
      }
      assert firsts[..|firsts|] == firsts;
    }

    /** The part is read against the builder's current tables. */
    ghost predicate Current(part: Part)
      reads this
    {
      part.t == t && part.labels == Labels(positions) && part.follow == follow
    }

    method Leaf(p: Particle) returns (node: DfaNode, ghost part: BuiltPart)
      requires Valid() && ValidTerm(t, p.term)
      modifies this`positions
      ensures Valid() && positions == old(positions) + [p]
      ensures Current(part) && part.node == node && part.l == LeafLang(t, p.term)
      ensures part.s == Span(|old(positions)|, |positions|, counters, counters)
    {
      var pos := |positions|;
      positions := positions + [p];
      node := LeafNode(pos);
      part := LeafPart(t, Labels(positions), follow, pos, counters);
    }

    method AddConcatFollows(lasts: seq<Entry>, firsts: seq<Entry>, ghost lo: nat)
      requires Valid()
      requires forall e :: e in lasts ==> lo <= e.pos < |positions|
      modifies this`follow
      ensures Valid() && SameBefore(old(follow), follow, lo)
      ensures Edges(follow) == Edges(old(follow)) + Bridges(Elements(lasts), Elements(firsts))
    {
      for i := 0 to |lasts|
        invariant Valid() && SameBefore(old(follow), follow, lo)
        invariant Edges(follow) == Edges(old(follow)) + Bridges(Elements(lasts[..i]), Elements(firsts))
      {
        var tail := lasts[i];
        AddFollows(tail.pos, tail.guards, tail.actions, firsts);
        BridgesGrow(lasts, firsts, i);
      }
      assert lasts[..|lasts|] == lasts;
    }

    method Concat(ghost a: BuiltPart, ghost c: BuiltPart, aNode: DfaNode, cNode: DfaNode)
      returns (node: DfaNode, ghost part: BuiltPart)
      requires Valid() && Current(a) && Current(c) && Neighbours(a, c) && aNode == a.node && cNode == c.node
      modifies this`follow
      ensures Valid() && SameBefore(old(follow), follow, a.s.lo)
      ensures IsConcat(aNode, cNode, node)
      ensures Edges(follow) == Edges(old(follow)) + Bridges(Elements(aNode.last), Elements(cNode.first))
      ensures Current(part) && part.node == node && part.s == JoinSpans(a.s, c.s) && part.l == Cat(a.l, c.l)
    {
      assert forall e :: e in aNode.last ==> e in a.Frag().last;
      AddConcatFollows(aNode.last, cNode.first, a.s.lo);
      var first := aNode.first;
      if aNode.nullable {
        first := first + cNode.first;
      }
      var last := cNode.last;
      if cNode.nullable {
        last := last + aNode.last;
      }
      node := DfaNode(NormalizeEntries(first), NormalizeEntries(last),
                      MergeCounters(aNode.counters, cNode.counters), aNode.nullable && cNode.nullable);
      part := ConcatPart(a, c, follow, node);
    }

    method Choice(ghost a: BuiltPart, ghost c: BuiltPart, aNode: DfaNode, cNode: DfaNode)
      returns (node: DfaNode, ghost part: BuiltPart)
      requires Valid() && Current(a) && Current(c) && Neighbours(a, c) && aNode == a.node && cNode == c.node
      ensures IsChoice(aNode, cNode, node)
      ensures Current(part) && part.node == node && part.s == JoinSpans(a.s, c.s) && part.l == a.l + c.l
    {
      node := DfaNode(NormalizeEntries(aNode.first + cNode.first), NormalizeEntries(aNode.last + cNode.last),
                      MergeCounters(aNode.counters, cNode.counters), aNode.nullable || cNode.nullable);
      part := ChoicePart(a, c, node);
    }

    method AddRepeatLoopFollows(child: DfaNode, o: Occurrence, slot: Option<nat>, resets: seq<Action>, ghost lo: nat)
      requires Valid() && Loops(o)
      requires forall e :: e in child.last ==> lo <= e.pos < |positions|
      modifies this`follow
      ensures Valid() && SameBefore(old(follow), follow, lo)
      ensures Edges(follow) == Edges(old(follow)) + LoopEdges(Elements(child.last), Elements(child.first), o, slot, resets)
    {
      ghost var base := follow;
      for i := 0 to |child.last|
        invariant Valid() && SameBefore(base, follow, lo)
        invariant Edges(follow) == Edges(base) + LoopEdges(Elements(child.last[..i]), Elements(child.first), o, slot, resets)
      {
        var tail := child.last[i];
        AddFollows(tail.pos, tail.guards + LoopGuards(o, slot), tail.actions + RoundActions(slot) + resets, child.first);
        LoopsGrow(child.last, child.first, o, slot, resets, i);
      }
      assert child.last[..|child.last|] == child.last;
    }

    method RepeatLastEntries(child: DfaNode, o: Occurrence, slot: Option<nat>) returns (last: seq<Entry>)
      ensures Elements(last) == set tail | tail in Elements(child.last) :: ExitEntry(tail, o, slot, child.nullable)
    {
      last := [];
      for i := 0 to |child.last|
        invariant Elements(last) == set tail | tail in Elements(child.last[..i]) :: ExitEntry(tail, o, slot, child.nullable)
      {
        var e := ExitEntry(child.last[i], o, slot, child.nullable);
        assert child.last[..i + 1] == child.last[..i] + [child.last[i]];
        assert Elements(child.last[..i + 1]) == Elements(child.last[..i]) + {child.last[i]};
        assert Elements(last + [e]) == Elements(last) + {e};
        last := last + [e];
      }
      assert child.last[..|child.last|] == child.last;
    }

    /** Repeats a part that ends at the end of the tables built so far. */
    method Repeat(ghost c: BuiltPart, child: DfaNode, o: Occurrence) returns (node: DfaNode, ghost part: BuiltPart)
      requires Valid() && o.Valid()
      requires Current(c) && child == c.node && c.s.endSlot == counters
      modifies this`follow, this`counters
      ensures Valid() && SameBefore(old(follow), follow, c.s.lo) && old(counters) <= counters
      ensures Current(part) && part.node == node && part.s == c.s.(endSlot := counters) && part.l == Rep(c.l, o)
    {
      if o.IsZero() {
        node := DfaNode([], [], [], true);
        part := EmptyPart(t, Labels(positions), follow, c.s, true);
        RepZero(c.l, o);
        return;
      }
      if o.IsExactlyOne() {
        RepOne(c.l);
        return child, c;
      }
      var slot := None;
      if RepeatNeedsCounter(o) {
        var self := NewCounter();
        slot := Some(self);
      }
      var last := RepeatLastEntries(child, o, slot);
      var resets := ResetActions(child.counters);
      assert forall e :: e in child.last ==> e in c.Frag().last;
      if Loops(o) {
        AddRepeatLoopFollows(child, o, slot, resets, c.s.lo);
      }
      var slots := child.counters;
      if slot.Some? {
        slots := MergeCounters(slots, [slot.value]);
      }
      node := DfaNode(child.first, NormalizeEntries(last), slots, o.min == 0 || child.nullable);
      part := RepeatPart(c, o, slot, resets, follow, node);
    }

    // ----- visiting the tree -----

    ghost function HeightOf(id: nat): nat {
      if Acyclic(t.models) && id < |t.models| then Rank(t.models)[id] else 0
    }

    /** The automaton of one particle; only the root's own particles are limited. */
    method ParticleNode(p: Particle, index: nat, scope: LimitScope) returns (r: Outcome<DfaNode>, ghost part: BuiltPart)
      requires Valid() && ValidTables(t) && ValidParticles(t, [p]) && TermInRange(t.models, p.term)
      modifies this`follow, this`positions, this`counters
      ensures Valid()
      ensures Visited(old(Now()), Now(), r, part,
                      ParticleLang(t, if scope.RootScope? then ApplyRepeatedChoiceLimit(p, index, limits) else p),
                      TermLeaves(t, p.term))
      ensures r.Ok? <==> SupportedTerm(t, p.term)
      ensures r.Err? ==> r.error == UnsupportedModel
      decreases TermHeight(t.models, p.term), 0
    {
      assert [p][0] == p;
      var limited := if scope.RootScope? then ApplyRepeatedChoiceLimit(p, index, limits) else p;
      var node;
      match p.term {
        case ModelTerm(id) =>
          r, part := ModelNode(id, NestedScope);
          if r.Err? { return; }
          node := r.value;
          assert t.models[id].(particles := ScopedParticles(t.models[id], NestedScope, limits)) == t.models[id];
        case _ =>
          node, part := Leaf(limited);
          LeafVisited(old(Now()), Now(), limited, part, TermLang(t, p.term));
      }
      ghost var visited, c := Now(), part;
      node, part := Repeat(part, node, limited.occurs);
      RepeatVisited(old(Now()), visited, Now(), c, c.l, TermLeaves(t, p.term), node, part, part.l);
      r := Ok(node);
    }

    /** Builds the i-th particle of a model beside the part `a` built so far. */
    method NextParticle(m: ContentModel, i: nat, scope: LimitScope, ghost a: BuiltPart)
      returns (r: Outcome<DfaNode>, ghost later: BuiltPart, ghost part: BuiltPart)
      requires Valid() && ValidTables(t) && ValidModel(t, m) && i < |m.particles|
      requires RefsInRange(t.models, m.particles) && RefsInRange(t.models, ScopedParticles(m, scope, limits))
      requires Current(a) && a.s.hi == |positions| && a.s.endSlot == counters
      modifies this`follow, this`positions, this`counters
      ensures Valid()
      ensures Visited(old(Now()), Now(), r, part, ParticleLang(t, ScopedParticles(m, scope, limits)[i]), TermLeaves(t, m.particles[i].term))
      ensures r.Ok? ==> Current(later) && later.node == a.node && later.s == a.s && later.l == a.l
      ensures r.Ok? <==> SupportedTerm(t, m.particles[i].term)
      ensures r.Err? ==> r.error == UnsupportedModel
      decreases Height(t.models, m.particles), 1
    {
      TermHeightBound(t.models, m.particles, i);
      ghost var before := positions;
      later := a;
      r, part := ParticleNode(m.particles[i], i, scope);
      if r.Ok? {
        LabelsExtend(before, positions);
        later := Later(a, Labels(positions), follow, a.s.endSlot);
      }
    }

    method JoinSequence(ghost start: Snapshot, ghost before: Snapshot, ghost a: BuiltPart, ghost later: BuiltPart, ghost c: BuiltPart,
                        aNode: DfaNode, cNode: DfaNode, ghost leaves: seq<Term>, ghost leaf: seq<Term>)
      returns (node: DfaNode, ghost part: BuiltPart)
      requires Valid()
      requires Visited(start, before, Ok(aNode), a, a.l, leaves) && Visited(before, Now(), Ok(cNode), c, c.l, leaf)
      requires Current(later) && later.node == a.node && later.s == a.s && later.l == a.l
      modifies this`follow
      ensures Valid() && Visited(start, Now(), Ok(node), part, Cat(a.l, c.l), leaves + leaf)
    {
      ghost var visited := Now();
      node, part := Concat(later, c, aNode, cNode);
      JoinStepped(before, visited, Now(), a, c, c.l, leaf, part);
      StepVisited(start, before, Now(), a, a.l, leaves, Ok(node), part, part.l, leaf);
    }

    /** Appends the i-th particle to what is built of a sequence. */
    method SequenceStep(m: ContentModel, i: nat, scope: LimitScope, ghost start: Snapshot, ghost a: BuiltPart, node: DfaNode)
      returns (r: Outcome<DfaNode>, ghost part: BuiltPart)
      requires Valid() && ValidTables(t) && ValidModel(t, m) && i < |m.particles|
      requires RefsInRange(t.models, m.particles) && RefsInRange(t.models, ScopedParticles(m, scope, limits))
      requires Visited(start, Now(), Ok(node), a, SequenceLang(t, ScopedParticles(m, scope, limits)[..i]), ParticleLeaves(t, m.particles[..i]))
      modifies this`follow, this`positions, this`counters
      ensures Valid()
      ensures Visited(start, Now(), r, part, SequenceLang(t, ScopedParticles(m, scope, limits)[..i + 1]), ParticleLeaves(t, m.particles[..i + 1]))
      ensures r.Ok? <==> SupportedTerm(t, m.particles[i].term)
      ensures r.Err? ==> r.error == UnsupportedModel
      decreases Height(t.models, m.particles), 2
    {
      ghost var ps := ScopedParticles(m, scope, limits);
      OneMoreParticle(t, ps, i);
      SupportedPrefix(t, m.particles, i);
      ghost var leaf := TermLeaves(t, m.particles[i].term);
      ghost var leaves := ParticleLeaves(t, m.particles[..i]);
      var child, later, c := NextParticle(m, i, scope, a);
      if child.Err? {
        FailedVisited(start, old(Now()), Now(), a, a.l, leaves, child, c, c.l, leaf, SequenceLang(t, ps[..i + 1]), leaves + leaf);
        return child, c;
      }
      var joined;
      joined, part := JoinSequence(start, old(Now()), a, later, c, node, child.value, leaves, leaf);
      r := Ok(joined);
    }

    method SequenceNode(m: ContentModel, scope: LimitScope) returns (r: Outcome<DfaNode>, ghost part: BuiltPart)
      requires Valid() && ValidTables(t) && ValidModel(t, m)
      requires RefsInRange(t.models, m.particles) && RefsInRange(t.models, ScopedParticles(m, scope, limits))
      modifies this`follow, this`positions, this`counters
      ensures Valid()
      ensures Visited(old(Now()), Now(), r, part, SequenceLang(t, ScopedParticles(m, scope, limits)), ParticleLeaves(t, m.particles))
      ensures r.Ok? <==> SupportedParticles(t, m.particles)
      ensures r.Err? ==> r.error == UnsupportedModel
      decreases Height(t.models, m.particles), 3
    {
      ghost var ps := ScopedParticles(m, scope, limits);
      ghost var start := Now();
      LimitKeepsRefs(t, m, limits);
      var node := DfaNode([], [], [], true);
      part := EmptyPart(t, Labels(positions), follow, Span(|positions|, |positions|, counters, counters), true);
      NothingVisited(start, true, part, SequenceLang(t, ps[..0]));
      for i := 0 to |m.particles|
        invariant Valid() && part.node == node
        invariant Visited(start, Now(), Ok(node), part, SequenceLang(t, ps[..i]), ParticleLeaves(t, m.particles[..i]))
        invariant SupportedParticles(t, m.particles[..i])
      {
        SupportedPrefix(t, m.particles, i);
        r, part := SequenceStep(m, i, scope, start, part, node);
        if r.Err? {
          OneUnsupported(t, m.particles, i);
          return;
        }
        node := r.value;
      }
      assert ps[..|ps|] == ps && m.particles[..|ps|] == m.particles;
      r := Ok(node);
    }

    method JoinChoice(ghost start: Snapshot, ghost before: Snapshot, ghost a: BuiltPart, ghost later: BuiltPart, ghost c: BuiltPart,
                        aNode: DfaNode, cNode: DfaNode, ghost leaves: seq<Term>, ghost leaf: seq<Term>)
      returns (node: DfaNode, ghost part: BuiltPart)
      requires Valid()
      requires Visited(start, before, Ok(aNode), a, a.l, leaves) && Visited(before, Now(), Ok(cNode), c, c.l, leaf)
      requires Current(later) && later.node == a.node && later.s == a.s && later.l == a.l
      modifies this`follow
      ensures Valid() && Visited(start, Now(), Ok(node), part, a.l + c.l, leaves + leaf)
    {
      ghost var visited := Now();
      node, part := Choice(later, c, aNode, cNode);
      JoinStepped(before, visited, Now(), a, c, c.l, leaf, part);
      StepVisited(start, before, Now(), a, a.l, leaves, Ok(node), part, part.l, leaf);
    }

    /** Adds the i-th particle as an alternative of a choice. */
    method ChoiceStep(m: ContentModel, i: nat, scope: LimitScope, ghost start: Snapshot, ghost a: BuiltPart, node: DfaNode)
      returns (r: Outcome<DfaNode>, ghost part: BuiltPart)
      requires Valid() && ValidTables(t) && ValidModel(t, m) && i < |m.particles|
      requires RefsInRange(t.models, m.particles) && RefsInRange(t.models, ScopedParticles(m, scope, limits))
      requires Visited(start, Now(), Ok(node), a, ChoiceLang(t, ScopedParticles(m, scope, limits)[..i]), ParticleLeaves(t, m.particles[..i]))
      modifies this`follow, this`positions, this`counters
      ensures Valid()
      ensures Visited(start, Now(), r, part, ChoiceLang(t, ScopedParticles(m, scope, limits)[..i + 1]), ParticleLeaves(t, m.particles[..i + 1]))
      ensures r.Ok? <==> SupportedTerm(t, m.particles[i].term)
      ensures r.Err? ==> r.error == UnsupportedModel
      decreases Height(t.models, m.particles), 2
    {
      ghost var ps := ScopedParticles(m, scope, limits);
      OneMoreParticle(t, ps, i);
      SupportedPrefix(t, m.particles, i);
      ghost var leaf := TermLeaves(t, m.particles[i].term);
      ghost var leaves := ParticleLeaves(t, m.particles[..i]);
      var child, later, c := NextParticle(m, i, scope, a);
      if child.Err? {
        FailedVisited(start, old(Now()), Now(), a, a.l, leaves, child, c, c.l, leaf, ChoiceLang(t, ps[..i + 1]), leaves + leaf);
        return child, c;
      }
      var joined;
      joined, part := JoinChoice(start, old(Now()), a, later, c, node, child.value, leaves, leaf);
      r := Ok(joined);
    }

    method ChoiceNode(m: ContentModel, scope: LimitScope) returns (r: Outcome<DfaNode>, ghost part: BuiltPart)
      requires Valid() && ValidTables(t) && ValidModel(t, m)
      requires RefsInRange(t.models, m.particles) && RefsInRange(t.models, ScopedParticles(m, scope, limits))
      modifies this`follow, this`positions, this`counters
      ensures Valid()
      ensures Visited(old(Now()), Now(), r, part, ChoiceLang(t, ScopedParticles(m, scope, limits)), ParticleLeaves(t, m.particles))
      ensures r.Ok? <==> SupportedParticles(t, m.particles)
      ensures r.Err? ==> r.error == UnsupportedModel
      decreases Height(t.models, m.particles), 3
    {
      ghost var ps := ScopedParticles(m, scope, limits);
      ghost var start := Now();
      LimitKeepsRefs(t, m, limits);
      var node := DfaNode([], [], [], false);
      part := EmptyPart(t, Labels(positions), follow, Span(|positions|, |positions|, counters, counters), false);
      NothingVisited(start, false, part, ChoiceLang(t, ps[..0]));
      for i := 0 to |m.particles|
        invariant Valid() && part.node == node
        invariant Visited(start, Now(), Ok(node), part, ChoiceLang(t, ps[..i]), ParticleLeaves(t, m.particles[..i]))
        invariant SupportedParticles(t, m.particles[..i])
      {
        SupportedPrefix(t, m.particles, i);
        r, part := ChoiceStep(m, i, scope, start, part, node);
        if r.Err? {
          OneUnsupported(t, m.particles, i);
          return;
        }
        node := r.value;
      }
      assert ps[..|ps|] == ps && m.particles[..|ps|] == m.particles;
      r := Ok(node);
    }

    /** One occurrence of a model's group. */
    method BodyNode(m: ContentModel, scope: LimitScope) returns (r: Outcome<DfaNode>, ghost part: BuiltPart)
      requires Valid() && ValidTables(t) && ValidModel(t, m)
      requires RefsInRange(t.models, m.particles) && RefsInRange(t.models, ScopedParticles(m, scope, limits))
      modifies this`follow, this`positions, this`counters
      ensures Valid()
      ensures Visited(old(Now()), Now(), r, part, BodyLang(t, m.kind, ScopedParticles(m, scope, limits)), BodyLeaves(t, m.kind, m.particles))
      ensures r.Ok? <==> SupportedBody(t, m.kind, m.particles)
      ensures r.Err? ==> r.error == UnsupportedModel
      decreases Height(t.models, m.particles), 4
    {
      match m.kind {
        case EmptyModel =>
          part := EmptyPart(t, Labels(positions), follow, Span(|positions|, |positions|, counters, counters), true);
          NothingVisited(Now(), true, part, BodyLang(t, m.kind, ScopedParticles(m, scope, limits)));
          r := Ok(DfaNode([], [], [], true));
        case Sequence =>
          r, part := SequenceNode(m, scope);
        case Choice =>
          r, part := ChoiceNode(m, scope);
        case _ =>
          part := EmptyPart(t, Labels(positions), follow, Span(|positions|, |positions|, counters, counters), true);
          r := Err(UnsupportedModel);
      }
    }

    /** Builds the automaton of a model: it recognizes exactly the model's language, its
        positions are the leaves of the tree, and it is refused exactly for a tree with an
        xs:all or any group in it. */
    method ModelNode(id: nat, scope: LimitScope) returns (r: Outcome<DfaNode>, ghost part: BuiltPart)
      requires Valid() && ValidTables(t)
      modifies this`follow, this`positions, this`counters
      ensures Valid()
      ensures r.Ok? <==> id < |t.models| && SupportedTerm(t, ModelTerm(id))
      ensures r.Err? ==> r.error == if id < |t.models| then UnsupportedModel else InternalInvariant
      ensures Visited(old(Now()), Now(), r, part,
                      if id < |t.models| then ScopedLang(t, t.models[id], scope, limits) else EMPTY,
                      if id < |t.models| then TermLeaves(t, ModelTerm(id)) else [])
      decreases HeightOf(id), 5
    {
      if id >= |t.models| {
        part := EmptyPart(t, Labels(positions), follow, Span(|positions|, |positions|, counters, counters), true);
        return Err(InternalInvariant), part;
      }
      var m := t.models[id];
      ModelHeight(t.models, id);
      LimitKeepsRefs(t, m, limits);
      r, part := BodyNode(m, scope);
      if r.Err? {
        return;
      }
      ScopedIsRepeat(t, m, scope, limits);
      ghost var visited, c := Now(), part;
      var node;
      node, part := Repeat(part, r.value, m.occurs);
      RepeatVisited(old(Now()), visited, Now(), c, c.l, TermLeaves(t, ModelTerm(id)), node, part, part.l);
      r := Ok(node);
    }
  }
}
