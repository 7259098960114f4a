/** When the guards of two entries can hold together. Every counter belongs to one
    repetition, so its guards share that repetition's bounds. */
module GuardPairs {
  import opened Schema
  import opened PositionAutomaton
  import opened AutomatonConcat
  import opened AutomatonRepeat

  /** The test for a pair that needs no attribution: one entry repeats a loop, the other
      leaves it, and the loop has a fixed number of rounds. */
  predicate Complementary(loopEdge: seq<Guard>, exitEdge: seq<Guard>) {
    exists l, e :: l in loopEdge && e in exitEdge && l.kind.LoopMax? && e.kind.ExitMin? && e.slot == l.slot && e.n == l.n
  }

  /** Some counters enable both. */
  ghost predicate EnabledTogether(x: seq<Guard>, y: seq<Guard>) {
    exists c :: Enabled(c, x) && Enabled(c, y)
  }

  /** Complementary guards exclude each other, whatever the counters. */
  lemma ComplementaryExcludes(x: seq<Guard>, y: seq<Guard>)
    requires Complementary(x, y)
    ensures forall c :: !(Enabled(c, x) && Enabled(c, y))
  {
    var l, e :| l in x && e in y && l.kind.LoopMax? && e.kind.ExitMin? && e.slot == l.slot && e.n == l.n;
    forall c | Enabled(c, x)
      ensures !Enabled(c, y)
    {
      assert GuardHolds(c, l) && !GuardHolds(c, e);
    }
  }

  /** Repeating and leaving one loop are possible in the same round exactly when the loop
      may have more than one round and its bounds differ. */
  lemma LoopAndExit(slot: nat, min: nat, max: nat)
    ensures EnabledTogether([Guard(slot, max, LoopMax)], [Guard(slot, min, ExitMin)]) <==> max >= 2 && max > min
  {
    var l, e := Guard(slot, max, LoopMax), Guard(slot, min, ExitMin);
    if EnabledTogether([l], [e]) {
      var c :| Enabled(c, [l]) && Enabled(c, [e]);
      assert [l][0] == l && [e][0] == e;
      assert GuardHolds(c, l) && GuardHolds(c, e);
    }
    if max >= 2 && max > min {
      var c: Counters := seq(slot + 1, _ => if min > 0 then min - 1 else 0);
      assert Enabled(c, [l]) && Enabled(c, [e]);
    }
  }

  // ----- the bounds behind the guards -----

  /** Minimum and maximum of the repetition that owns a counter. */
  type Bounds = map<nat, (nat, nat)>

  ghost predicate GuardBounded(b: Bounds, g: Guard) {
    && g.slot in b
    && match g.kind
       case ExitMin => 0 < g.n == b[g.slot].0
       case LoopMax => 2 <= g.n == b[g.slot].1 && b[g.slot].0 <= g.n
  }

  /** An entry leaves a loop or repeats it, never both. */
  ghost predicate GuardsBounded(b: Bounds, guards: seq<Guard>) {
    && (forall g :: g in guards ==> GuardBounded(b, g))
    && (forall g, h :: g in guards && h in guards && g.slot == h.slot ==> g.kind == h.kind)
  }

  ghost predicate FragmentBounded(b: Bounds, f: Fragment) {
    match f case Fragment(_, last, edges, _, _) =>
      && (forall e :: e in last ==> GuardsBounded(b, e.guards))
      && (forall d :: d in edges ==> GuardsBounded(b, d.entry.guards))
  }

  ghost predicate HasBounds(f: Fragment) {
    exists b :: FragmentBounded(b, f)
  }

  lemma BoundsAgree(b: Bounds, b': Bounds, guards: seq<Guard>)
    requires GuardsBounded(b, guards)
    requires forall g :: g in guards ==> g.slot in b' && b'[g.slot] == b[g.slot]
    ensures GuardsBounded(b', guards)
  {
  }

  lemma SameGuards(b: Bounds, x: seq<Guard>, y: seq<Guard>)
    requires GuardsBounded(b, x) && forall g :: g in y <==> g in x
    ensures GuardsBounded(b, y)
  {
  }

  /** The bounds of a fragment stay its bounds when others are added on other counters. */
  lemma BoundsKept(b: Bounds, b': Bounds, f: Fragment, lo: int, hi: int, k: nat)
    requires FragmentBounded(b, f) && Within(f, lo, hi, k)
    requires forall s :: s in f.slots && s in b ==> s in b' && b'[s] == b[s]
    ensures FragmentBounded(b', f)
  {
    forall e | e in f.last
      ensures GuardsBounded(b', e.guards)
    {
      assert EntryIn(e, f.slots, lo, hi) && GuardsBounded(b, e.guards);
      BoundsAgree(b, b', e.guards);
    }
    forall d | d in f.edges
      ensures GuardsBounded(b', d.entry.guards)
    {
      assert EntryIn(d.entry, f.slots, lo, hi) && GuardsBounded(b, d.entry.guards);
      BoundsAgree(b, b', d.entry.guards);
    }
  }

  ghost function JoinBounds(slots: set<nat>, x: Bounds, y: Bounds): Bounds {
    y + (map s | s in x && s in slots :: x[s])
  }

  /** Two fragments with counters of their own have common bounds. */
  lemma CommonBounds(a: Fragment, c: Fragment, lo: int, mid: int, hi: int, k: nat) returns (b: Bounds)
    requires Adjacent(a, c, lo, mid, hi, k) && HasBounds(a) && HasBounds(c)
    ensures FragmentBounded(b, a) && FragmentBounded(b, c)
  {
    var x :| FragmentBounded(x, a);
    var y :| FragmentBounded(y, c);
    b := JoinBounds(a.slots, x, y);
    BoundsKept(x, b, a, lo, mid, k);
    BoundsKept(y, b, c, mid, hi, k);
  }

  lemma ChoiceBounds(a: Fragment, c: Fragment, lo: int, mid: int, hi: int, k: nat)
    requires Adjacent(a, c, lo, mid, hi, k) && HasBounds(a) && HasBounds(c)
    ensures HasBounds(ChoiceFragment(a, c))
  {
    var b := CommonBounds(a, c, lo, mid, hi, k);
    assert FragmentBounded(b, ChoiceFragment(a, c));
  }

  lemma ConcatBounds(a: Fragment, c: Fragment, lo: int, mid: int, hi: int, k: nat)
    requires Adjacent(a, c, lo, mid, hi, k) && HasBounds(a) && HasBounds(c)
    ensures HasBounds(ConcatFragment(a, c))
  {
    var b := CommonBounds(a, c, lo, mid, hi, k);
    forall d | d in Bridges(a.last, c.first)
      ensures GuardsBounded(b, d.entry.guards)
    {
      var tail, head :| tail in a.last && head in c.first && d == BridgeEdge(tail, head);
      ComposePlain(tail, head);
      SameGuards(b, tail.guards, d.entry.guards);
    }
    assert FragmentBounded(b, ConcatFragment(a, c));
  }

  /** One more guard on a counter of its own. */
  lemma OneMoreGuard(b: Bounds, x: seq<Guard>, more: seq<Guard>, y: seq<Guard>)
    requires GuardsBounded(b, x) && |more| <= 1 && forall g :: g in more ==> GuardBounded(b, g)
    requires forall g, h :: g in x && h in more ==> g.slot != h.slot
    requires forall g :: g in y <==> g in x || g in more
    ensures GuardsBounded(b, y)
  {
    forall g, h | g in y && h in y && g.slot == h.slot
      ensures g.kind == h.kind
    {
      if g in more && h in more {
        assert g == more[0] && h == more[0];
      }
    }
  }

  /** The bounds of a body that is repeated, with those of the repetition itself. */
  ghost predicate LoopBounded(b: Bounds, x: Loop) {
    match x case LoopCase(_, _, f, _, _, _, _, o, slot, _) =>
      FragmentBounded(b, f) && (slot.Some? ==> slot.value in b && b[slot.value] == (o.min, o.max))
  }

  lemma ExitBounded(b: Bounds, x: Loop, tail: Entry)
    requires LoopBounded(b, x) && tail in x.f.last
    ensures GuardsBounded(b, ExitEntry(tail, x.o, x.slot, x.f.nullable).guards)
  {
    assert EntryIn(tail, x.f.slots, x.lo, x.hi) && GuardsBounded(b, tail.guards);
    OneMoreGuard(b, tail.guards, ExitGuards(x.o, x.slot, x.f.nullable), ExitEntry(tail, x.o, x.slot, x.f.nullable).guards);
  }

  lemma LoopEdgeBounded(b: Bounds, x: Loop, tail: Entry, head: Entry)
    requires LoopBounded(b, x) && tail in x.f.last && head in x.f.first && Loops(x.o)
    ensures GuardsBounded(b, LoopEdge(tail, head, x.o, x.slot, x.resets).entry.guards)
  {
    assert EntryIn(tail, x.f.slots, x.lo, x.hi) && GuardsBounded(b, tail.guards) && Plain(head);
    OneMoreGuard(b, tail.guards, LoopGuards(x.o, x.slot), LoopEdge(tail, head, x.o, x.slot, x.resets).entry.guards);
  }

  lemma RepeatBounds(x: Loop)
    requires HasBounds(x.f)
    ensures HasBounds(x.Result())
  {
    var b :| FragmentBounded(b, x.f);
    var b' := if x.slot.Some? then b[x.slot.value := (x.o.min, x.o.max)] else b;
    BoundsKept(b, b', x.f, x.lo, x.hi, x.k);
    forall tail | tail in x.f.last
      ensures GuardsBounded(b', ExitEntry(tail, x.o, x.slot, x.f.nullable).guards)
    {
      ExitBounded(b', x, tail);
    }
    forall tail, head | tail in x.f.last && head in x.f.first && Loops(x.o)
      ensures GuardsBounded(b', LoopEdge(tail, head, x.o, x.slot, x.resets).entry.guards)
    {
      LoopEdgeBounded(b', x, tail, head);
    }
    assert FragmentBounded(b', x.Result());
  }

  // ----- the test is exact -----

  ghost predicate LeavesLoop(guards: seq<Guard>, slot: nat) {
    exists g :: g in guards && g.slot == slot && g.kind.ExitMin?
  }

  /** Counters that have just enough rounds for every exit, and no round otherwise. */
  ghost function JustEnough(b: Bounds, guards: seq<Guard>, k: nat): (c: Counters)
    requires GuardsBounded(b, guards) || forall g :: g in guards ==> GuardBounded(b, g)
    ensures |c| == k
    ensures forall s :: 0 <= s < k ==> c[s] == if LeavesLoop(guards, s) && s in b && b[s].0 > 0 then b[s].0 - 1 else 0
  {
    seq(k, s requires 0 <= s < k => if LeavesLoop(guards, s) && s in b && b[s].0 > 0 then b[s].0 - 1 else 0)
  }

  lemma JustEnoughHolds(b: Bounds, x: seq<Guard>, y: seq<Guard>, k: nat, g: Guard)
    requires GuardsBounded(b, x) && GuardsBounded(b, y) && g.slot < k && (g in x || g in y)
    requires !Complementary(x, y) && !Complementary(y, x)
    ensures GuardHolds(JustEnough(b, x + y, k), g)
  {
    var c := JustEnough(b, x + y, k);
    assert g in x + y;
    if g.kind.ExitMin? {
      assert LeavesLoop(x + y, g.slot);
    } else if LeavesLoop(x + y, g.slot) {
      var e :| e in x + y && e.slot == g.slot && e.kind.ExitMin?;
      assert e in x || e in y;
      assert e.n != g.n;
    }
  }

  /** For guards of one automaton, the test says exactly whether no counters enable both. */
  lemma TogetherIff(b: Bounds, x: seq<Guard>, y: seq<Guard>)
    requires GuardsBounded(b, x) && GuardsBounded(b, y)
    ensures EnabledTogether(x, y) <==> !Complementary(x, y) && !Complementary(y, x)
  {
    if Complementary(x, y) {
      ComplementaryExcludes(x, y);
    } else if Complementary(y, x) {
      ComplementaryExcludes(y, x);
    } else {
      var k := SlotBound(x + y);
      forall g | g in x || g in y
        ensures GuardHolds(JustEnough(b, x + y, k), g)
      {
        assert g in x + y;
        JustEnoughHolds(b, x, y, k, g);
      }
      assert Enabled(JustEnough(b, x + y, k), x) && Enabled(JustEnough(b, x + y, k), y);
    }
  }

  function SlotBound(guards: seq<Guard>): (k: nat)
    ensures forall g :: g in guards ==> g.slot < k
  {
    if guards == [] then 0
    else
      var rest := SlotBound(guards[1..]);
      if guards[0].slot < rest then rest else guards[0].slot + 1
  }
}
