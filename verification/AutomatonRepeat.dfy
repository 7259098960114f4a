/** Repetition of a position automaton over an occurrence range. A range that needs
    it gets a counter of completed rounds: leaving demands the minimum, going round
    again demands room below the maximum and clears the counters inside. */
module AutomatonRepeat {
  import opened Schema
  import opened Languages
  import opened PositionAutomaton

  predicate RepeatNeedsCounter(o: Occurrence) {
    o.min > 1 || (!o.unbounded && o.max > 1)
  }

  predicate Loops(o: Occurrence) {
    o.unbounded || o.max > 1
  }

  function ExitGuards(o: Occurrence, slot: Option<nat>, nullable: bool): seq<Guard> {
    if slot.Some? && o.min > 0 && !nullable then [Guard(slot.value, o.min, ExitMin)] else []
  }

  function RoundActions(slot: Option<nat>): seq<Action> {
    if slot.Some? then [Action(slot.value, Inc)] else []
  }

  function LoopGuards(o: Occurrence, slot: Option<nat>): seq<Guard> {
    if slot.Some? && !o.unbounded then [Guard(slot.value, o.max, LoopMax)] else []
  }

  function ExitEntry(tail: Entry, o: Occurrence, slot: Option<nat>, nullable: bool): Entry {
    Entry(tail.pos, AppendGuards(tail.guards, ExitGuards(o, slot, nullable)), tail.actions + RoundActions(slot))
  }

  function LoopEdge(tail: Entry, head: Entry, o: Occurrence, slot: Option<nat>, resets: seq<Action>): Edge {
    Edge(tail.pos, ComposeEntry(tail.guards + LoopGuards(o, slot), tail.actions + RoundActions(slot) + resets, head))
  }

  function LoopEdges(last: set<Entry>, first: set<Entry>, o: Occurrence, slot: Option<nat>, resets: seq<Action>): set<Edge> {
    if Loops(o) then set tail, head | tail in last && head in first :: LoopEdge(tail, head, o, slot, resets) else {}
  }

  function SlotSet(slot: Option<nat>): set<nat> {
    if slot.Some? then {slot.value} else {}
  }

  function RepeatFragment(f: Fragment, o: Occurrence, slot: Option<nat>, resets: seq<Action>): Fragment {
    Fragment(
      f.first,
      set tail | tail in f.last :: ExitEntry(tail, o, slot, f.nullable),
      f.edges + LoopEdges(f.last, f.first, o, slot, resets),
      f.slots + SlotSet(slot),
      o.min == 0 || f.nullable)
  }

  /** A loop about to be closed around a fragment that recognizes `l`. */
  datatype LoopCase = LoopCase(
    t: Tables, labels: seq<Term>, f: Fragment, lo: int, hi: int, k: nat, l: Lang,
    o: Occurrence, slot: Option<nat>, resets: seq<Action>)
  {
    ghost function Result(): Fragment {
      RepeatFragment(f, o, slot, resets)
    }
  }

  ghost predicate Loopable(x: LoopCase) {
    && Within(x.f, x.lo, x.hi, x.k)
    && Recognizes(x.t, x.labels, x.f, x.k, x.l)
    && x.o.Valid() && !x.o.IsZero()
    && (x.slot.Some? ==> x.slot.value < x.k && x.slot.value !in x.f.slots)
    && (x.slot.None? ==> !RepeatNeedsCounter(x.o))
    && Clears(x.resets, x.f.slots)
  }

  type Loop = x: LoopCase | Loopable(x) ghost witness LoopWitness()

  ghost function LoopWitness(): (x: LoopCase)
    ensures Loopable(x)
  {
    var t := Tables([], [], [], map[], []);
    EmptyWordRecognizes(t, [], 0);
    LoopCase(t, [], NothingFragment(), 0, 0, 0, EMPTY, Occurrence(0, 1, false), None, [])
  }

  ghost predicate FreshCounters(x: Loop, c0: Counters) {
    |c0| >= x.k && ZeroOn(c0, x.f.slots) && (x.slot.Some? ==> c0[x.slot.value] == 0)
  }

  ghost predicate Clears(resets: seq<Action>, slots: set<nat>) {
    && (forall a :: a in resets ==> a.kind.Reset? && a.slot in slots)
    && forall s :: s in slots ==> Action(s, Reset) in resets
  }

  lemma {:induction false} ApplyResets(c: Counters, resets: seq<Action>)
    requires forall a :: a in resets ==> a.kind.Reset?
    ensures forall s :: 0 <= s < |c| && Action(s, Reset) in resets ==> Apply(c, resets)[s] == 0
    ensures forall s :: 0 <= s < |c| && Action(s, Reset) !in resets ==> Apply(c, resets)[s] == c[s]
    decreases |resets|
  {
    if resets != [] {
      var head := resets[0];
      assert head in resets && head == Action(head.slot, Reset);
      assert forall a :: a in resets <==> a == head || a in resets[1..];
      ApplyResets(ApplyOne(c, head), resets[1..]);
    }
  }

  /** The counters at the start of round j. */
  function RoundStart(c0: Counters, slot: Option<nat>, j: nat): (c: Counters)
    ensures |c| == |c0|
  {
    if slot.Some? && slot.value < |c0| then c0[slot.value := j] else c0
  }

  /** Going round leaves exactly the start of the next round. */
  lemma NextRound(x: Loop, c0: Counters, j: nat, d: Counters, tail: Entry)
    requires FreshCounters(x, c0)
    requires tail in x.f.last
    requires AgreeOff(d, RoundStart(c0, x.slot, j), x.f.slots)
    ensures Apply(d, tail.actions + RoundActions(x.slot) + x.resets) == RoundStart(c0, x.slot, j + 1)
  {
    assert EntryIn(tail, x.f.slots, x.lo, x.hi);
    var d1 := Apply(d, tail.actions);
    ApplyFrame(d, tail.actions, x.f.slots);
    var d2 := Apply(d1, RoundActions(x.slot));
    ApplyAppend(d, tail.actions, RoundActions(x.slot));
    ApplyAppend(d, tail.actions + RoundActions(x.slot), x.resets);
    if x.slot.Some? {
      assert d2 == ApplyOne(d1, RoundActions(x.slot)[0]);
    }
    ApplyResets(d2, x.resets);
    var d3 := Apply(d2, x.resets);
    forall s | 0 <= s < |d3|
      ensures d3[s] == RoundStart(c0, x.slot, j + 1)[s]
    {
      if s in x.f.slots {
        assert Action(s, Reset) in x.resets;
      } else {
        assert Action(s, Reset) !in x.resets;
      }
    }
  }

  lemma LoopPlain(tail: Entry, head: Entry, o: Occurrence, slot: Option<nat>, resets: seq<Action>)
    requires Plain(head)
    ensures var e := LoopEdge(tail, head, o, slot, resets).entry;
            && e.pos == head.pos && e.actions == tail.actions + RoundActions(slot) + resets
            && forall g :: g in e.guards <==> g in tail.guards || g in LoopGuards(o, slot)
  {
    var actions := tail.actions + RoundActions(slot) + resets;
    assert actions + [] == actions;
  }

  lemma {:induction false} RepeatWithin(x: Loop)
    ensures Within(x.Result(), x.lo, x.hi, x.k)
  {
    var r := x.Result();
    forall e | e in r.last
      ensures EntryIn(e, r.slots, x.lo, x.hi)
    {
      var tail :| tail in x.f.last && e == ExitEntry(tail, x.o, x.slot, x.f.nullable);
      assert EntryIn(tail, x.f.slots, x.lo, x.hi);
    }
    forall d | d in r.edges
      ensures x.lo <= d.from < x.hi && EntryIn(d.entry, r.slots, x.lo, x.hi)
    {
      if d in x.f.edges {
        assert EntryIn(d.entry, x.f.slots, x.lo, x.hi);
      } else {
        var tail, head :| tail in x.f.last && head in x.f.first && d == LoopEdge(tail, head, x.o, x.slot, x.resets);
        LoopPlain(tail, head, x.o, x.slot, x.resets);
        assert EntryIn(tail, x.f.slots, x.lo, x.hi);
      }
    }
  }

  // ----- one turn of the loop -----

  /** The body can end here, in the round that started as j. */
  ghost predicate RoundDone(x: Loop, c0: Counters, j: nat, q: int, d: Counters) {
    Ends(x.f, q, d) && AgreeOff(d, RoundStart(c0, x.slot, j), x.f.slots)
  }

  /** w[..i] is j finished rounds. */
  ghost predicate Finished(x: Loop, w: Word, i: int, j: nat) {
    0 <= i < |w| && w[..i] in Power(NonEmpty(x.l), j) && (x.o.unbounded || j < x.o.max)
  }

  /** w[..i] is j finished rounds and w[i..] a run of one more. */
  ghost predicate InRound(x: Loop, c0: Counters, w: Word, p: int, c: Counters, i: int, j: nat) {
    Finished(x, w, i, j) && Reach(x.t, x.labels, x.f, RoundStart(c0, x.slot, j), w[i..], p, c)
  }

  lemma StartZero(x: Loop, c0: Counters, j: nat)
    requires FreshCounters(x, c0)
    ensures ZeroOn(RoundStart(c0, x.slot, j), x.f.slots)
    ensures RoundStart(c0, x.slot, 0) == c0
  {
  }

  /** Taking a loop edge completes the body and starts the next round. */
  lemma TurnElim(x: Loop, c0: Counters, j: nat, q: int, d: Counters, e: Entry)
    requires FreshCounters(x, c0)
    requires AgreeOff(d, RoundStart(c0, x.slot, j), x.f.slots)
    requires Edge(q, e) in LoopEdges(x.f.last, x.f.first, x.o, x.slot, x.resets) && Enabled(d, e.guards)
    ensures Ends(x.f, q, d) && Starts(x.f, e.pos) && Apply(d, e.actions) == RoundStart(c0, x.slot, j + 1)
    ensures x.o.unbounded || j + 1 < x.o.max
  {
    var tail, head :| tail in x.f.last && head in x.f.first && Edge(q, e) == LoopEdge(tail, head, x.o, x.slot, x.resets);
    LoopPlain(tail, head, x.o, x.slot, x.resets);
    NextRound(x, c0, j, d, tail);
    if x.slot.Some? && !x.o.unbounded {
      assert Guard(x.slot.value, x.o.max, LoopMax) in LoopGuards(x.o, x.slot);
      assert GuardHolds(d, Guard(x.slot.value, x.o.max, LoopMax));
    }
  }

  /** Conversely, a completed body with room for another round has its loop edges. */
  lemma TurnStep(x: Loop, c0: Counters, j: nat, q: int, d: Counters, p: int) returns (e: Entry)
    requires FreshCounters(x, c0) && (x.o.unbounded || j + 1 < x.o.max)
    requires RoundDone(x, c0, j, q, d) && Starts(x.f, p)
    ensures Step(x.Result(), q, d, e, p, RoundStart(c0, x.slot, j + 1))
  {
    var tail :| tail in x.f.last && tail.pos == q && Enabled(d, tail.guards);
    var head :| head in x.f.first && head.pos == p;
    NextRound(x, c0, j, d, tail);
    LoopPlain(tail, head, x.o, x.slot, x.resets);
    var edge := LoopEdge(tail, head, x.o, x.slot, x.resets);
    e := edge.entry;
    assert edge in LoopEdges(x.f.last, x.f.first, x.o, x.slot, x.resets);
    forall g | g in e.guards
      ensures GuardHolds(d, g)
    {
      if g !in tail.guards {
        assert g == Guard(x.slot.value, x.o.max, LoopMax);
      }
    }
  }

  lemma LastRound(l: Lang, w: Word, n: nat) returns (i: int)
    requires n > 0 && w in Power(NonEmpty(l), n)
    ensures 0 <= i < |w| && w[..i] in Power(NonEmpty(l), n - 1) && w[i..] in l
  {
    i :| Splits(Power(NonEmpty(l), n - 1), NonEmpty(l), w, i);
  }

  /** A nonempty body word is a round of its own. */
  lemma RoundRun(x: Loop, c0: Counters, j: nat, y: Word) returns (q: int, d: Counters)
    requires FreshCounters(x, c0)
    requires y in x.l && y != []
    ensures Reach(x.t, x.labels, x.f, RoundStart(c0, x.slot, j), y, q, d) && RoundDone(x, c0, j, q, d)
  {
    var start := RoundStart(c0, x.slot, j);
    StartZero(x, c0, j);
    assert Accepts(x.t, x.labels, x.f, start, y);
    q, d :| Reach(x.t, x.labels, x.f, start, y, q, d) && Ends(x.f, q, d);
    ReachFrame(x.t, x.labels, x.f, x.lo, x.hi, x.k, start, y, q, d);
  }

  /** And a round that may end has read a body word. */
  lemma RoundWord(x: Loop, c0: Counters, j: nat, y: Word, q: int, d: Counters)
    requires FreshCounters(x, c0)
    requires Reach(x.t, x.labels, x.f, RoundStart(c0, x.slot, j), y, q, d) && Ends(x.f, q, d)
    ensures y in x.l
  {
    StartZero(x, c0, j);
    assert Accepts(x.t, x.labels, x.f, RoundStart(c0, x.slot, j), y);
  }

  // ----- soundness: a run is some finished rounds and a run of one more -----

  lemma RoundContinues(x: Loop, c0: Counters, w: Word, p: int, c: Counters, i: int, j: nat, q: int, d: Counters, e: Entry)
    requires |w| > 1 && Hits(x.t, x.labels, p, w[|w| - 1])
    requires InRound(x, c0, w[..|w| - 1], q, d, i, j)
    requires Step(x.f, q, d, e, p, c)
    ensures InRound(x, c0, w, p, c, i, j)
  {
    var n := |w| - 1;
    assert w[..n][..i] == w[..i];
    assert w[..n][i..] == w[i..][..|w[i..]| - 1];
  }

  lemma RoundEnds(x: Loop, c0: Counters, w: Word, p: int, c: Counters, i: int, j: nat, q: int, d: Counters, e: Entry)
    requires FreshCounters(x, c0)
    requires |w| > 1 && Hits(x.t, x.labels, p, w[|w| - 1])
    requires InRound(x, c0, w[..|w| - 1], q, d, i, j)
    requires Edge(q, e) in LoopEdges(x.f.last, x.f.first, x.o, x.slot, x.resets) && e.pos == p && Enabled(d, e.guards)
    requires c == Apply(d, e.actions)
    ensures InRound(x, c0, w, p, c, |w| - 1, j + 1)
  {
    var n := |w| - 1;
    var y := w[..n][i..];
    ReachFrame(x.t, x.labels, x.f, x.lo, x.hi, x.k, RoundStart(c0, x.slot, j), y, q, d);
    TurnElim(x, c0, j, q, d, e);
    RoundWord(x, c0, j, y, q, d);
    CatIntro(Power(NonEmpty(x.l), j), NonEmpty(x.l), w[..n][..i], y);
    SplitWord(w[..n], i);
    assert Reach(x.t, x.labels, x.f, c, w[n..], p, c);
  }

  lemma {:induction false} RepeatReach(x: Loop, c0: Counters, w: Word, p: int, c: Counters)
    requires FreshCounters(x, c0)
    requires Reach(x.t, x.labels, x.Result(), c0, w, p, c)
    ensures exists i, j: nat :: InRound(x, c0, w, p, c, i, j)
    decreases |w|
  {
    var r := x.Result();
    if |w| == 1 {
      var e :| e in r.first && e.pos == p;
      assert Starts(x.f, p);
      StartZero(x, c0, 0);
      assert w[..0] == [] && w[0..] == w;
      assert InRound(x, c0, w, p, c, 0, 0);
    } else {
      var n := |w| - 1;
      var q, d, e :| Reach(x.t, x.labels, r, c0, w[..n], q, d) && Step(r, q, d, e, p, c);
      RepeatReach(x, c0, w[..n], q, d);
      var i, j: nat :| InRound(x, c0, w[..n], q, d, i, j);
      if Edge(q, e) in x.f.edges {
        RoundContinues(x, c0, w, p, c, i, j, q, d, e);
      } else {
        RoundEnds(x, c0, w, p, c, i, j, q, d, e);
      }
    }
  }

  // ----- completeness: finished rounds and a run of one more are a run -----

  /** A run of the first round is a run. */
  lemma FirstRound(x: Loop, c0: Counters, w: Word, p: int, c: Counters, i: int)
    requires FreshCounters(x, c0)
    requires InRound(x, c0, w, p, c, i, 0)
    ensures Reach(x.t, x.labels, x.Result(), c0, w, p, c)
  {
    assert w[i..] == w;
    StartZero(x, c0, 0);
    ReachMonotone(x.t, x.labels, x.f, x.Result(), c0, w, p, c);
  }

  lemma {:induction false} RepeatLift(x: Loop, c0: Counters, w: Word, i: int, j: nat, p: int, c: Counters)
    requires FreshCounters(x, c0)
    requires InRound(x, c0, w, p, c, i, j)
    ensures Reach(x.t, x.labels, x.Result(), c0, w, p, c)
    decreases |w|
  {
    var n := |w| - 1;
    if j == 0 {
      FirstRound(x, c0, w, p, c, i);
    } else if i == n {
      RoundHits(x, c0, w, p, c, i, j);
      var i', q, d := PreviousRun(x, c0, w[..n], j);
      RepeatLift(x, c0, w[..n], i', j - 1, q, d);
      LiftTurn(x, c0, w, p, c, j, q, d);
    } else {
      var e, q, d := RoundBefore(x, c0, w, p, c, i, j);
      RepeatLift(x, c0, w[..n], i, j, q, d);
      LiftStep(x, c0, w, p, c, i, j, q, d, e);
    }
  }

  /** The last child starts a round. */
  lemma {:induction false} LiftTurn(x: Loop, c0: Counters, w: Word, p: int, c: Counters, j: nat, q: int, d: Counters)
    requires FreshCounters(x, c0) && j > 0 && InRound(x, c0, w, p, c, |w| - 1, j)
    requires |w| > 1 && Reach(x.t, x.labels, x.Result(), c0, w[..|w| - 1], q, d) && RoundDone(x, c0, j - 1, q, d)
    ensures Reach(x.t, x.labels, x.Result(), c0, w, p, c)
  {
    RoundHits(x, c0, w, p, c, |w| - 1, j);
    var e := TurnStep(x, c0, j - 1, q, d, p);
    ReachOneMore(x.t, x.labels, x.Result(), c0, w, q, d, e, p, c);
  }

  /** The last child stays in its round. */
  lemma LiftStep(x: Loop, c0: Counters, w: Word, p: int, c: Counters, i: int, j: nat, q: int, d: Counters, e: Entry)
    requires InRound(x, c0, w, p, c, i, j) && |w| > 1
    requires Reach(x.t, x.labels, x.Result(), c0, w[..|w| - 1], q, d) && Step(x.f, q, d, e, p, c)
    ensures Reach(x.t, x.labels, x.Result(), c0, w, p, c)
  {
    RoundHits(x, c0, w, p, c, i, j);
    StepKept(x, q, d, e, p, c);
    ReachOneMore(x.t, x.labels, x.Result(), c0, w, q, d, e, p, c);
  }

  lemma RoundHits(x: Loop, c0: Counters, w: Word, p: int, c: Counters, i: int, j: nat)
    requires InRound(x, c0, w, p, c, i, j)
    ensures Hits(x.t, x.labels, p, w[|w| - 1])
    ensures i == |w| - 1 ==> Starts(x.f, p) && c == RoundStart(c0, x.slot, j) && w[..|w| - 1] in Power(NonEmpty(x.l), j)
    ensures j > 0 ==> x.o.unbounded || j < x.o.max
  {
    assert w[i..][|w| - i - 1] == w[|w| - 1];
  }

  /** A step of the body is a step of the loop. */
  lemma StepKept(x: Loop, q: int, d: Counters, e: Entry, p: int, c: Counters)
    requires Step(x.f, q, d, e, p, c)
    ensures Step(x.Result(), q, d, e, p, c)
  {
  }

  lemma ReachOneMore(t: Tables, labels: seq<Term>, f: Fragment, c0: Counters, w: Word, q: int, d: Counters, e: Entry, p: int, c: Counters)
    requires |w| > 1 && Hits(t, labels, p, w[|w| - 1])
    requires Reach(t, labels, f, c0, w[..|w| - 1], q, d) && Step(f, q, d, e, p, c)
    ensures Reach(t, labels, f, c0, w, p, c)
  {
  }

  lemma RoundBefore(x: Loop, c0: Counters, w: Word, p: int, c: Counters, i: int, j: nat)
    returns (e: Entry, q: int, d: Counters)
    requires InRound(x, c0, w, p, c, i, j) && i < |w| - 1
    ensures InRound(x, c0, w[..|w| - 1], q, d, i, j) && Step(x.f, q, d, e, p, c)
  {
    var n := |w| - 1;
    assert w[i..][..|w[i..]| - 1] == w[..n][i..] && w[..n][..i] == w[..i];
    q, d, e :| Reach(x.t, x.labels, x.f, RoundStart(c0, x.slot, j), w[..n][i..], q, d) && Step(x.f, q, d, e, p, c);
  }

  /** j > 0 finished rounds end with a run of the last of them. */
  lemma PreviousRun(x: Loop, c0: Counters, u: Word, j: nat) returns (i: int, q: int, d: Counters)
    requires FreshCounters(x, c0)
    requires j > 0 && u in Power(NonEmpty(x.l), j) && (x.o.unbounded || j < x.o.max)
    ensures InRound(x, c0, u, q, d, i, j - 1) && RoundDone(x, c0, j - 1, q, d)
  {
    i := LastRound(x.l, u, j);
    q, d := RoundRun(x, c0, j - 1, u[i..]);
  }

  // ----- acceptance -----

  /** Leaving the loop in round j demands a completed body and the minimum. */
  lemma ExitIff(x: Loop, c0: Counters, j: nat, p: int, c: Counters)
    requires FreshCounters(x, c0)
    requires AgreeOff(c, RoundStart(c0, x.slot, j), x.f.slots)
    ensures Ends(x.Result(), p, c) <==> Ends(x.f, p, c) && (x.f.nullable || x.o.min <= j + 1)
  {
    var r := x.Result();
    if Ends(r, p, c) {
      var e :| e in r.last && e.pos == p && Enabled(c, e.guards);
      var tail :| tail in x.f.last && e == ExitEntry(tail, x.o, x.slot, x.f.nullable);
      ExitGuardsHold(x, c0, j, c, tail);
    }
    if Ends(x.f, p, c) && (x.f.nullable || x.o.min <= j + 1) {
      var tail :| tail in x.f.last && tail.pos == p && Enabled(c, tail.guards);
      ExitGuardsHold(x, c0, j, c, tail);
      assert ExitEntry(tail, x.o, x.slot, x.f.nullable) in r.last;
    }
  }

  lemma ExitGuardsHold(x: Loop, c0: Counters, j: nat, c: Counters, tail: Entry)
    requires FreshCounters(x, c0)
    requires AgreeOff(c, RoundStart(c0, x.slot, j), x.f.slots)
    ensures Enabled(c, ExitEntry(tail, x.o, x.slot, x.f.nullable).guards) <==>
            Enabled(c, tail.guards) && (x.f.nullable || x.o.min <= j + 1)
  {
    var exit := ExitGuards(x.o, x.slot, x.f.nullable);
    var all := ExitEntry(tail, x.o, x.slot, x.f.nullable).guards;
    assert forall g :: g in all <==> g in tail.guards || g in exit;
    if exit != [] {
      assert exit[0] in exit && exit[0] in all;
      assert GuardHolds(c, exit[0]) <==> x.o.min <= j + 1;
    }
  }

  lemma RepeatSound(x: Loop, c0: Counters, w: Word)
    requires FreshCounters(x, c0)
    requires Accepts(x.t, x.labels, x.Result(), c0, w)
    ensures w in Rep(x.l, x.o)
  {
    var p, c :| Reach(x.t, x.labels, x.Result(), c0, w, p, c) && Ends(x.Result(), p, c);
    RepeatReach(x, c0, w, p, c);
    var i, j: nat :| InRound(x, c0, w, p, c, i, j);
    ReachFrame(x.t, x.labels, x.f, x.lo, x.hi, x.k, RoundStart(c0, x.slot, j), w[i..], p, c);
    ExitIff(x, c0, j, p, c);
    RoundWord(x, c0, j, w[i..], p, c);
    RoundsMakeWord(x, w, i, j);
  }

  lemma RoundsMakeWord(x: Loop, w: Word, i: int, j: nat)
    requires Finished(x, w, i, j) && w[i..] in x.l
    requires x.f.nullable || x.o.min <= j + 1
    ensures w in Rep(x.l, x.o)
  {
    CatIntro(Power(NonEmpty(x.l), j), NonEmpty(x.l), w[..i], w[i..]);
    SplitWord(w, i);
    assert w in Power(NonEmpty(x.l), j + 1);
    assert Rounds(x.o, [] in x.l, j + 1);
    RepByRounds(x.l, x.o, w);
  }

  lemma WordMakesRounds(x: Loop, w: Word) returns (i: int, j: nat)
    requires w in Rep(x.l, x.o) && w != []
    ensures Finished(x, w, i, j) && w[i..] in x.l
    ensures x.f.nullable || x.o.min <= j + 1
  {
    RepByRounds(x.l, x.o, w);
    var n: nat :| Rounds(x.o, [] in x.l, n) && w in Power(NonEmpty(x.l), n);
    i := LastRound(x.l, w, n);
    j := n - 1;
  }

  lemma RepeatComplete(x: Loop, c0: Counters, w: Word)
    requires FreshCounters(x, c0)
    requires w in Rep(x.l, x.o) && w != []
    ensures Accepts(x.t, x.labels, x.Result(), c0, w)
  {
    var i, j := WordMakesRounds(x, w);
    var p, c := RoundRun(x, c0, j, w[i..]);
    RepeatLift(x, c0, w, i, j, p, c);
    ExitIff(x, c0, j, p, c);
  }

  /** Closing a loop turns the body's language into its repetition. */
  lemma RepeatRecognizes(x: Loop)
    ensures Recognizes(x.t, x.labels, x.Result(), x.k, Rep(x.l, x.o))
  {
    var r := x.Result();
    RepHasEmpty(x.l, x.o);
    forall c0: Counters, w: Word | |c0| >= x.k && ZeroOn(c0, r.slots) && w != []
      ensures Accepts(x.t, x.labels, r, c0, w) <==> w in Rep(x.l, x.o)
    {
      assert FreshCounters(x, c0);
      if Accepts(x.t, x.labels, r, c0, w) {
        RepeatSound(x, c0, w);
      }
      if w in Rep(x.l, x.o) {
        RepeatComplete(x, c0, w);
      }
    }
  }
}
