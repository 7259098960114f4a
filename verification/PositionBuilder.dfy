/** The builder that walks a content model and grows its position automaton in
    place: positions, the follow table and the counters are appended to as the
    tree is visited. */
module PositionBuilder {
  import opened Schema
  import opened Languages
  import opened ContentLanguage
  import opened Normal
  import opened PositionAutomaton
  import opened AutomatonConcat
  import opened AutomatonRepeat
  import opened GuardPairs

  datatype CompileError = StateLimit | UpaViolation | UnsupportedModel | InternalInvariant

  datatype Outcome<+T> = Ok(value: T) | Err(error: CompileError)

  datatype DfaNode = DfaNode(first: seq<Entry>, last: seq<Entry>, counters: seq<nat>, nullable: bool)

  datatype LimitScope = RootScope | NestedScope

  type FollowTable = map<int, seq<Entry>>

  // ----- keys -----

  function GuardsKey(gs: seq<Guard>): seq<int> {
    if gs == [] then [] else GuardKey(gs[0]) + GuardsKey(gs[1..])
  }

  function ActionsKey(actions: seq<Action>): seq<int> {
    if actions == [] then []
    else [actions[0].slot, if actions[0].kind.Inc? then 0 else 1] + ActionsKey(actions[1..])
  }

  function EntryKey(e: Entry): seq<int> {
    [e.pos, |e.guards|] + GuardsKey(e.guards) + [|e.actions|] + ActionsKey(e.actions)
  }

  lemma {:induction false} GuardsKeyDecodes(a: seq<Guard>, b: seq<Guard>)
    requires |a| == |b| && GuardsKey(a) == GuardsKey(b)
    ensures a == b
  {
    if a != [] {
      assert GuardKey(a[0]) == GuardsKey(a)[..3] && GuardKey(b[0]) == GuardsKey(b)[..3];
      assert GuardsKey(a[1..]) == GuardsKey(a)[3..] && GuardsKey(b[1..]) == GuardsKey(b)[3..];
      GuardsKeyDecodes(a[1..], b[1..]);
      assert GuardKey(a[0])[0] == a[0].slot && GuardKey(a[0])[1] == (if a[0].kind.ExitMin? then 0 else 1) && GuardKey(a[0])[2] == a[0].n;
    }
  }

  lemma {:induction false} GuardsKeyLength(a: seq<Guard>)
    ensures |GuardsKey(a)| == 3 * |a|
  {
    if a != [] {
      GuardsKeyLength(a[1..]);
    }
  }

  lemma {:induction false} ActionsKeyDecodes(a: seq<Action>, b: seq<Action>)
    requires |a| == |b| && ActionsKey(a) == ActionsKey(b)
    ensures a == b
  {
    if a != [] {
      var ka, kb := ActionsKey(a), ActionsKey(b);
      assert ka[0] == a[0].slot && kb[0] == b[0].slot;
      assert ka[1] == (if a[0].kind.Inc? then 0 else 1) && kb[1] == (if b[0].kind.Inc? then 0 else 1);
      assert ActionsKey(a[1..]) == ka[2..] && ActionsKey(b[1..]) == kb[2..];
      ActionsKeyDecodes(a[1..], b[1..]);
    }
  }

  lemma {:induction false} ActionsKeyLength(a: seq<Action>)
    ensures |ActionsKey(a)| == 2 * |a|
  {
    if a != [] {
      ActionsKeyLength(a[1..]);
    }
  }

  lemma EntryKeyParts(e: Entry)
    ensures var k, n := EntryKey(e), |e.guards|;
            && |k| == 3 + 3 * n + 2 * |e.actions| && k[0] == e.pos && k[1] == n
            && k[2..2 + 3 * n] == GuardsKey(e.guards)
            && k[2 + 3 * n] == |e.actions| && k[3 + 3 * n..] == ActionsKey(e.actions)
  {
    GuardsKeyLength(e.guards);
    ActionsKeyLength(e.actions);
  }

  /** An entry's key tells the entry. */
  lemma EntryKeyInjective()
    ensures Injective(EntryKey)
  {
    forall a: Entry, b: Entry | EntryKey(a) == EntryKey(b)
      ensures a == b
    {
      EntryKeyParts(a);
      EntryKeyParts(b);
      GuardsKeyDecodes(a.guards, b.guards);
      ActionsKeyDecodes(a.actions, b.actions);
    }
  }

  function SlotKey(slot: nat): seq<int> {
    [slot]
  }

  function NormalizeEntries(entries: seq<Entry>): (r: seq<Entry>)
    ensures Elements(r) == Elements(entries)
  {
    Normalize(EntryKey, entries)
  }

  function MergeCounters(a: seq<nat>, b: seq<nat>): (r: seq<nat>)
    ensures Elements(r) == Elements(a) + Elements(b)
  {
    Normalize(SlotKey, a + b)
  }

  function ResetActions(counters: seq<nat>): (r: seq<Action>)
    ensures Clears(r, Elements(counters))
  {
    if counters == [] then []
    else
      assert forall s :: s in counters <==> s == counters[0] || s in counters[1..];
      [Action(counters[0], Reset)] + ResetActions(counters[1..])
  }

  function Elements<T>(xs: seq<T>): set<T> {
    set x | x in xs
  }

  // ----- the fragment a node stands for -----

  ghost function Edges(follow: FollowTable): set<Edge> {
    set p, e | p in follow && e in follow[p] :: Edge(p, e)
  }

  ghost function LiveEdges(follow: FollowTable, live: set<int>): set<Edge> {
    set d | d in Edges(follow) && d.from in live
  }

  /** Which positions and counters a node owns. */
  datatype Span = Span(lo: int, hi: int, firstSlot: nat, endSlot: nat)

  /** A node together with the tables it is read against, the positions that can
      be entered, and the language it stands for. */
  datatype Part = Part(t: Tables, labels: seq<Term>, follow: FollowTable, node: DfaNode, live: set<int>, s: Span, l: Lang)
  {
    ghost function Frag(): Fragment {
      Fragment(Elements(node.first), Elements(node.last), LiveEdges(follow, live), Elements(node.counters), node.nullable)
    }
  }

  ghost predicate PositionsIn(f: Fragment, live: set<int>) {
    && (forall e :: e in f.first ==> e.pos in live)
    && (forall e :: e in f.last ==> e.pos in live)
    && (forall d :: d in f.edges ==> d.entry.pos in live)
  }

  /** The node recognizes its language. */
  ghost predicate Built(p: Part) {
    var f := p.Frag();
    && 0 <= p.s.lo <= p.s.hi <= |p.labels|
    && (forall q :: q in p.live ==> p.s.lo <= q < p.s.hi)
    && PositionsIn(f, p.live)
    && Within(f, p.s.lo, p.s.hi, p.s.endSlot)
    && p.s.firstSlot <= p.s.endSlot
    && (forall c :: c in f.slots ==> p.s.firstSlot <= c)
    && Recognizes(p.t, p.labels, f, p.s.endSlot, p.l)
    && HasBounds(f)
  }

  type BuiltPart = p: Part | Built(p)
    ghost witness EmptyPart(Tables([], [], [], map[], []), [], map[], Span(0, 0, 0, 0), true)

  ghost predicate Extends(a: seq<Particle>, b: seq<Particle>) {
    |a| <= |b| && b[..|a|] == a
  }

  /** Positions before lo keep their follow entries. */
  ghost predicate SameBefore(a: FollowTable, b: FollowTable, lo: int) {
    forall p :: p < lo ==> (p in a <==> p in b) && (p in a ==> a[p] == b[p])
  }

  function Labels(ps: seq<Particle>): (r: seq<Term>)
    ensures |r| == |ps|
  {
    seq(|ps|, i requires 0 <= i < |ps| => ps[i].term)
  }

  lemma LabelsExtend(a: seq<Particle>, b: seq<Particle>)
    requires Extends(a, b)
    ensures Labels(a) == Labels(b)[..|a|]
  {
    forall i | 0 <= i < |a|
      ensures Labels(a)[i] == Labels(b)[i]
    {
      assert b[..|a|][i] == b[i];
    }
  }

  lemma LiveEdgesAgree(a: FollowTable, b: FollowTable, live: set<int>)
    requires forall p :: p in live ==> (p in a <==> p in b) && (p in a ==> a[p] == b[p])
    ensures LiveEdges(a, live) == LiveEdges(b, live)
  {
    forall d
      ensures d in LiveEdges(a, live) <==> d in LiveEdges(b, live)
    {
      assert d in Edges(a) <==> d.from in a && d.entry in a[d.from];
      assert d in Edges(b) <==> d.from in b && d.entry in b[d.from];
    }
  }

  lemma SameBeforeTrans(a: FollowTable, b: FollowTable, c: FollowTable, lo: int, hi: int)
    requires SameBefore(a, b, lo) && SameBefore(b, c, hi) && lo <= hi
    ensures SameBefore(a, c, lo)
  {
  }

  lemma ExtendsTrans(a: seq<Particle>, b: seq<Particle>, c: seq<Particle>)
    requires Extends(a, b) && Extends(b, c)
    ensures Extends(a, c)
  {
    assert c[..|a|] == c[..|b|][..|a|];
  }

  /** A finished part is not disturbed by what is built after it. */
  ghost function Later(p: BuiltPart, labels: seq<Term>, follow: FollowTable, endSlot: nat): (r: BuiltPart)
    requires |p.labels| <= |labels| && labels[..|p.labels|] == p.labels
    requires SameBefore(p.follow, follow, p.s.hi)
    requires p.s.endSlot <= endSlot
  {
    LiveEdgesAgree(p.follow, follow, p.live);
    assert labels[..p.s.hi] == labels[..|p.labels|][..p.s.hi];
    RecognizesRelabel(p.t, p.labels, labels, p.Frag(), p.s.lo, p.s.hi, p.s.endSlot, endSlot, p.l);
    p.(labels := labels, follow := follow, s := p.s.(endSlot := endSlot))
  }

  // ----- what each construction step does to a part -----

  ghost function EmptyPart(t: Tables, labels: seq<Term>, follow: FollowTable, s: Span, nullable: bool): (r: Part)
    requires 0 <= s.lo <= s.hi <= |labels| && s.firstSlot <= s.endSlot
    ensures Built(r)
  {
    var r := Part(t, labels, follow, DfaNode([], [], [], nullable), {}, s, if nullable then EPSILON else EMPTY);
    assert r.Frag() == if nullable then EmptyWordFragment() else NothingFragment();
    EmptyWordRecognizes(t, labels, s.endSlot);
    assert FragmentBounded(map[], r.Frag());
    r
  }

  function LeafNode(pos: nat): DfaNode {
    DfaNode([Entry(pos, [], [])], [Entry(pos, [], [])], [], false)
  }

  ghost function LeafPart(t: Tables, labels: seq<Term>, follow: FollowTable, pos: nat, slot: nat): (r: BuiltPart)
    requires pos < |labels| && pos !in follow
    ensures r == Part(t, labels, follow, LeafNode(pos), {pos}, Span(pos, pos + 1, slot, slot), LeafLang(t, labels[pos]))
  {
    var r := Part(t, labels, follow, LeafNode(pos), {pos}, Span(pos, pos + 1, slot, slot), LeafLang(t, labels[pos]));
    assert LiveEdges(follow, {pos}) == {};
    assert r.Frag() == LeafFragment(pos);
    LeafRecognizes(t, labels, pos, slot);
    assert FragmentBounded(map[], r.Frag());
    r
  }

  /** Two neighbouring parts of the same tables, the left one first. */
  ghost predicate Neighbours(a: Part, c: Part) {
    a.t == c.t && a.labels == c.labels && a.follow == c.follow && a.s.hi <= c.s.lo && a.s.endSlot <= c.s.firstSlot
  }

  function JoinSpans(s: Span, r: Span): Span {
    Span(s.lo, r.hi, s.firstSlot, r.endSlot)
  }

  lemma LiveUnion(follow: FollowTable, follow': FollowTable, a: set<int>, b: set<int>, more: set<Edge>)
    requires Edges(follow') == Edges(follow) + more
    requires forall d :: d in more ==> d.from in a + b
    ensures LiveEdges(follow', a + b) == LiveEdges(follow, a) + LiveEdges(follow, b) + more
  {
  }

  lemma WidenWithin(f: Fragment, lo: int, hi: int, hi': int, k: nat, k': nat)
    requires Within(f, lo, hi, k) && hi <= hi' && k <= k'
    ensures Within(f, lo, hi', k')
  {
    forall e | e in f.last
      ensures EntryIn(e, f.slots, lo, hi')
    {
      assert EntryIn(e, f.slots, lo, hi);
    }
    forall d | d in f.edges
      ensures lo <= d.from < hi' && EntryIn(d.entry, f.slots, lo, hi')
    {
      assert EntryIn(d.entry, f.slots, lo, hi);
    }
  }

  lemma JoinSetup(a: BuiltPart, c: BuiltPart)
    requires Neighbours(a, c)
    ensures Adjacent(a.Frag(), c.Frag(), a.s.lo, c.s.lo, c.s.hi, c.s.endSlot)
    ensures Recognizes(a.t, a.labels, a.Frag(), c.s.endSlot, a.l)
  {
    WidenWithin(a.Frag(), a.s.lo, a.s.hi, c.s.lo, a.s.endSlot, c.s.endSlot);
    RecognizesRelabel(a.t, a.labels, a.labels, a.Frag(), a.s.lo, a.s.hi, a.s.endSlot, c.s.endSlot, a.l);
  }

  ghost predicate IsConcat(a: DfaNode, c: DfaNode, node: DfaNode) {
    && Elements(node.first) == Elements(a.first) + (if a.nullable then Elements(c.first) else {})
    && Elements(node.last) == Elements(c.last) + (if c.nullable then Elements(a.last) else {})
    && Elements(node.counters) == Elements(a.counters) + Elements(c.counters)
    && node.nullable == (a.nullable && c.nullable)
  }

  ghost function ConcatPart(a: BuiltPart, c: BuiltPart, follow': FollowTable, node: DfaNode): (r: BuiltPart)
    requires Neighbours(a, c) && IsConcat(a.node, c.node, node)
    requires Edges(follow') == Edges(a.follow) + Bridges(Elements(a.node.last), Elements(c.node.first))
    ensures r == Part(a.t, a.labels, follow', node, a.live + c.live, JoinSpans(a.s, c.s), Cat(a.l, c.l))
  {
    var r := Part(a.t, a.labels, follow', node, a.live + c.live, JoinSpans(a.s, c.s), Cat(a.l, c.l));
    var fa, fc := a.Frag(), c.Frag();
    var bridges := Bridges(fa.last, fc.first);
    assert forall d :: d in bridges ==> d.from in a.live && d.entry.pos in c.live;
    LiveUnion(a.follow, follow', a.live, c.live, bridges);
    assert r.Frag() == ConcatFragment(fa, fc);
    JoinSetup(a, c);
    ConcatWithin(fa, fc, a.s.lo, c.s.lo, c.s.hi, c.s.endSlot);
    ConcatBounds(fa, fc, a.s.lo, c.s.lo, c.s.hi, c.s.endSlot);
    ConcatRecognizes(a.t, a.labels, fa, fc, a.s.lo, c.s.lo, c.s.hi, c.s.endSlot, a.l, c.l);
    r
  }

  ghost predicate IsChoice(a: DfaNode, c: DfaNode, node: DfaNode) {
    && Elements(node.first) == Elements(a.first) + Elements(c.first)
    && Elements(node.last) == Elements(a.last) + Elements(c.last)
    && Elements(node.counters) == Elements(a.counters) + Elements(c.counters)
    && node.nullable == (a.nullable || c.nullable)
  }

  ghost function ChoicePart(a: BuiltPart, c: BuiltPart, node: DfaNode): (r: BuiltPart)
    requires Neighbours(a, c) && IsChoice(a.node, c.node, node)
    ensures r == Part(a.t, a.labels, a.follow, node, a.live + c.live, JoinSpans(a.s, c.s), a.l + c.l)
  {
    var r := Part(a.t, a.labels, a.follow, node, a.live + c.live, JoinSpans(a.s, c.s), a.l + c.l);
    var fa, fc := a.Frag(), c.Frag();
    LiveUnion(a.follow, a.follow, a.live, c.live, {});
    assert r.Frag() == ChoiceFragment(fa, fc);
    JoinSetup(a, c);
    ChoiceWithin(fa, fc, a.s.lo, c.s.lo, c.s.hi, c.s.endSlot);
    ChoiceBounds(fa, fc, a.s.lo, c.s.lo, c.s.hi, c.s.endSlot);
    ChoiceRecognizes(a.t, a.labels, fa, fc, a.s.lo, c.s.lo, c.s.hi, c.s.endSlot, a.l, c.l);
    r
  }

  ghost predicate IsRepeat(c: DfaNode, o: Occurrence, slot: Option<nat>, node: DfaNode) {
    && node.first == c.first
    && Elements(node.last) == (set tail | tail in Elements(c.last) :: ExitEntry(tail, o, slot, c.nullable))
    && Elements(node.counters) == Elements(c.counters) + SlotSet(slot)
    && node.nullable == (o.min == 0 || c.nullable)
  }

  /** The loop that closes around a part. */
  ghost function LoopAround(c: BuiltPart, o: Occurrence, slot: Option<nat>, resets: seq<Action>): (x: Loop)
    requires o.Valid() && !o.IsZero()
    requires slot == if RepeatNeedsCounter(o) then Some(c.s.endSlot) else None
    requires Clears(resets, Elements(c.node.counters))
  {
    var k := if slot.Some? then c.s.endSlot + 1 else c.s.endSlot;
    var f := c.Frag();
    WidenWithin(f, c.s.lo, c.s.hi, c.s.hi, c.s.endSlot, k);
    RecognizesRelabel(c.t, c.labels, c.labels, f, c.s.lo, c.s.hi, c.s.endSlot, k, c.l);
    LoopCase(c.t, c.labels, f, c.s.lo, c.s.hi, k, c.l, o, slot, resets)
  }

  lemma LoopEdgesLive(c: BuiltPart, o: Occurrence, slot: Option<nat>, resets: seq<Action>, follow': FollowTable)
    requires Edges(follow') == Edges(c.follow) + LoopEdges(Elements(c.node.last), Elements(c.node.first), o, slot, resets)
    ensures LiveEdges(follow', c.live) == c.Frag().edges + LoopEdges(c.Frag().last, c.Frag().first, o, slot, resets)
    ensures forall d :: d in LiveEdges(follow', c.live) ==> d.entry.pos in c.live
  {
    var loops := LoopEdges(c.Frag().last, c.Frag().first, o, slot, resets);
    assert forall d :: d in loops ==> d.from in c.live && d.entry.pos in c.live;
    LiveUnion(c.follow, follow', c.live, {}, loops);
    assert c.live + {} == c.live;
  }

  ghost function RepeatPart(c: BuiltPart, o: Occurrence, slot: Option<nat>, resets: seq<Action>,
                            follow': FollowTable, node: DfaNode): (r: BuiltPart)
    requires o.Valid() && !o.IsZero() && IsRepeat(c.node, o, slot, node)
    requires slot == if RepeatNeedsCounter(o) then Some(c.s.endSlot) else None
    requires Clears(resets, Elements(c.node.counters))
    requires Edges(follow') == Edges(c.follow) + LoopEdges(Elements(c.node.last), Elements(c.node.first), o, slot, resets)
    ensures r == Part(c.t, c.labels, follow', node, c.live,
                      c.s.(endSlot := if slot.Some? then c.s.endSlot + 1 else c.s.endSlot), Rep(c.l, o))
  {
    var x := LoopAround(c, o, slot, resets);
    var r := Part(c.t, c.labels, follow', node, c.live, c.s.(endSlot := x.k), Rep(c.l, o));
    LoopEdgesLive(c, o, slot, resets, follow');
    assert r.Frag() == x.Result();
    RepeatWithin(x);
    RepeatRecognizes(x);
    RepeatBounds(x);
    r
  }
}
