/** Position automata with counters. A fragment is what has been built for a
    subtree: the entries that may start it, the entries that may end it, and the
    edges between its positions. Entries carry guards that are checked on the
    counters before the entry's actions change them.

    A fragment is run from any counter valuation that is zero on its own slots;
    other slots are left alone. That is what lets fragments be combined without
    renaming counters. */
module PositionAutomaton {
  import opened Schema
  import opened Languages
  import opened Normal
  import opened ContentLanguage

  // ----- entries -----

  datatype GuardKind = ExitMin | LoopMax

  datatype Guard = Guard(slot: nat, n: nat, kind: GuardKind)

  datatype ActionKind = Inc | Reset

  datatype Action = Action(slot: nat, kind: ActionKind)

  datatype Entry = Entry(pos: int, guards: seq<Guard>, actions: seq<Action>)

  datatype Edge = Edge(from: int, entry: Entry)

  function GuardKey(g: Guard): seq<int> {
    [g.slot, if g.kind.ExitMin? then 0 else 1, g.n]
  }

  function AppendGuards(a: seq<Guard>, b: seq<Guard>): (r: seq<Guard>)
    ensures forall g :: g in r <==> g in a || g in b
  {
    Normalize(GuardKey, a + b)
  }

  function ComposeEntry(guards: seq<Guard>, actions: seq<Action>, e: Entry): Entry {
    Entry(e.pos, AppendGuards(guards, e.guards), actions + e.actions)
  }

  // ----- counters -----

  type Counters = seq<nat>

  /** A guard counts the round that is being completed, hence n - 1. */
  predicate GuardHolds(c: Counters, g: Guard) {
    && g.slot < |c|
    && match g.kind
       case ExitMin => g.n > 0 ==> c[g.slot] >= g.n - 1
       case LoopMax => g.n != 0 && c[g.slot] < g.n - 1
  }

  predicate Enabled(c: Counters, guards: seq<Guard>) {
    forall g :: g in guards ==> GuardHolds(c, g)
  }

  function ApplyOne(c: Counters, a: Action): (r: Counters)
    ensures |r| == |c|
  {
    if a.slot >= |c| then c
    else match a.kind
      case Inc => c[a.slot := c[a.slot] + 1]
      case Reset => c[a.slot := 0]
  }

  function Apply(c: Counters, actions: seq<Action>): (r: Counters)
    ensures |r| == |c|
    decreases |actions|
  {
    if actions == [] then c else Apply(ApplyOne(c, actions[0]), actions[1..])
  }

  ghost predicate ZeroOn(c: Counters, slots: set<nat>) {
    forall s :: s in slots && s < |c| ==> c[s] == 0
  }

  ghost predicate AgreeOff(c: Counters, d: Counters, slots: set<nat>) {
    |c| == |d| && forall s :: 0 <= s < |c| && s !in slots ==> c[s] == d[s]
  }

  ghost predicate ActionsIn(actions: seq<Action>, slots: set<nat>) {
    forall a :: a in actions ==> a.slot in slots
  }

  ghost predicate GuardsIn(guards: seq<Guard>, slots: set<nat>) {
    forall g :: g in guards ==> g.slot in slots
  }

  lemma {:induction false} ApplyAppend(c: Counters, a: seq<Action>, b: seq<Action>)
    ensures Apply(c, a + b) == Apply(Apply(c, a), b)
    decreases |a|
  {
    if a == [] {
      assert a + b == b;
    } else {
      assert (a + b)[0] == a[0] && (a + b)[1..] == a[1..] + b;
      ApplyAppend(ApplyOne(c, a[0]), a[1..], b);
    }
  }

  lemma {:induction false} ApplyFrame(c: Counters, actions: seq<Action>, slots: set<nat>)
    requires ActionsIn(actions, slots)
    ensures AgreeOff(Apply(c, actions), c, slots)
    decreases |actions|
  {
    if actions != [] {
      assert actions[0] in actions;
      forall a | a in actions[1..]
        ensures a.slot in slots
      {
        assert a in actions;
      }
      ApplyFrame(ApplyOne(c, actions[0]), actions[1..], slots);
    }
  }

  // ----- fragments and their runs -----

  datatype Fragment = Fragment(
    first: set<Entry>, last: set<Entry>, edges: set<Edge>, slots: set<nat>, nullable: bool)

  /** A first entry is reached without any condition. */
  ghost predicate Plain(e: Entry) {
    e.guards == [] && e.actions == []
  }

  ghost predicate EntryIn(e: Entry, slots: set<nat>, lo: int, hi: int) {
    lo <= e.pos < hi && GuardsIn(e.guards, slots) && ActionsIn(e.actions, slots)
  }

  ghost predicate Within(f: Fragment, lo: int, hi: int, k: nat) {
    match f case Fragment(first, last, edges, slots, _) =>
      && (forall e :: e in first ==> lo <= e.pos < hi && Plain(e))
      && (forall e :: e in last ==> EntryIn(e, slots, lo, hi))
      && (forall d :: d in edges ==> lo <= d.from < hi && EntryIn(d.entry, slots, lo, hi))
      && (forall s :: s in slots ==> s < k)
  }

  ghost predicate Hits(t: Tables, labels: seq<Term>, p: int, x: Input) {
    0 <= p < |labels| && TermMatches(t, labels[p], x)
  }

  ghost predicate Step(f: Fragment, q: int, d: Counters, e: Entry, p: int, c: Counters) {
    match f case Fragment(_, _, edges, _, _) =>
      Edge(q, e) in edges && e.pos == p && Enabled(d, e.guards) && c == Apply(d, e.actions)
  }

  ghost predicate Starts(f: Fragment, p: int) {
    exists e :: e in f.first && e.pos == p
  }

  /** After reading the nonempty w from c0, position p may be current with counters c. */
  ghost predicate Reach(t: Tables, labels: seq<Term>, f: Fragment, c0: Counters, w: Word, p: int, c: Counters)
    decreases |w|
  {
    match f case Fragment(_, _, _, _, _) =>
      && w != []
      && Hits(t, labels, p, w[|w| - 1])
      && if |w| == 1 then Starts(f, p) && c == c0
         else exists q, d, e :: Reach(t, labels, f, c0, w[..|w| - 1], q, d) && Step(f, q, d, e, p, c)
  }

  ghost predicate Ends(f: Fragment, p: int, c: Counters) {
    exists e :: e in f.last && e.pos == p && Enabled(c, e.guards)
  }

  ghost predicate Accepts(t: Tables, labels: seq<Term>, f: Fragment, c0: Counters, w: Word) {
    exists p, c :: Reach(t, labels, f, c0, w, p, c) && Ends(f, p, c)
  }

  /** The fragment accepts l from every valuation that is zero on its slots. */
  ghost predicate Recognizes(t: Tables, labels: seq<Term>, f: Fragment, k: nat, l: Lang) {
    match f case Fragment(_, _, _, slots, nullable) =>
      && (nullable <==> [] in l)
      && forall c0: Counters, w: Word :: |c0| >= k && ZeroOn(c0, slots) && w != [] ==>
           (Accepts(t, labels, f, c0, w) <==> w in l)
  }

  lemma ReachExtend(t: Tables, labels: seq<Term>, f: Fragment, c0: Counters, u: Word, q: int, d: Counters,
                    e: Entry, x: Input, p: int, c: Counters)
    requires Reach(t, labels, f, c0, u, q, d) && Step(f, q, d, e, p, c) && Hits(t, labels, p, x)
    ensures Reach(t, labels, f, c0, u + [x], p, c)
  {
    var w := u + [x];
    assert w[..|w| - 1] == u && w[|w| - 1] == x;
  }

  /** Reading off a word of the language from an accepting run. */
  lemma AcceptedWord(t: Tables, labels: seq<Term>, f: Fragment, k: nat, l: Lang, c0: Counters, w: Word, p: int, c: Counters)
    requires Recognizes(t, labels, f, k, l)
    requires |c0| >= k && ZeroOn(c0, f.slots)
    requires Reach(t, labels, f, c0, w, p, c) && Ends(f, p, c)
    ensures w in l && (f.nullable <==> [] in l)
  {
    assert Accepts(t, labels, f, c0, w);
  }

  // ----- runs stay inside the fragment -----

  lemma {:induction false} ReachFrame(t: Tables, labels: seq<Term>, f: Fragment, lo: int, hi: int, k: nat,
                                      c0: Counters, w: Word, p: int, c: Counters)
    requires Within(f, lo, hi, k)
    requires Reach(t, labels, f, c0, w, p, c)
    ensures lo <= p < hi
    ensures AgreeOff(c, c0, f.slots)
    decreases |w|
  {
    if |w| > 1 {
      var q, d, e :| Reach(t, labels, f, c0, w[..|w| - 1], q, d) && Step(f, q, d, e, p, c);
      ReachFrame(t, labels, f, lo, hi, k, c0, w[..|w| - 1], q, d);
      assert EntryIn(Edge(q, e).entry, f.slots, lo, hi);
      ApplyFrame(d, e.actions, f.slots);
    }
  }

  /** A run survives in a fragment that has at least the same starts and edges. */
  lemma {:induction false} ReachMonotone(t: Tables, labels: seq<Term>, f: Fragment, g: Fragment,
                                         c0: Counters, w: Word, p: int, c: Counters)
    requires f.first <= g.first && f.edges <= g.edges
    requires Reach(t, labels, f, c0, w, p, c)
    ensures Reach(t, labels, g, c0, w, p, c)
    decreases |w|
  {
    if |w| == 1 {
      var e :| e in f.first && e.pos == p;
      assert e in g.first;
    } else {
      var q, d, e :| Reach(t, labels, f, c0, w[..|w| - 1], q, d) && Step(f, q, d, e, p, c);
      ReachMonotone(t, labels, f, g, c0, w[..|w| - 1], q, d);
      assert Step(g, q, d, e, p, c);
    }
  }

  /** Positions added later do not disturb a finished fragment. */
  lemma {:induction false} ReachRelabel(t: Tables, a: seq<Term>, b: seq<Term>, f: Fragment, lo: int, hi: int, k: nat,
                                        c0: Counters, w: Word, p: int, c: Counters)
    requires 0 <= lo <= hi
    requires Within(f, lo, hi, k) && hi <= |a| && hi <= |b| && a[..hi] == b[..hi]
    requires Reach(t, a, f, c0, w, p, c)
    ensures Reach(t, b, f, c0, w, p, c)
    decreases |w|
  {
    ReachFrame(t, a, f, lo, hi, k, c0, w, p, c);
    assert a[p] == a[..hi][p] == b[..hi][p] == b[p];
    if |w| > 1 {
      var q, d, e :| Reach(t, a, f, c0, w[..|w| - 1], q, d) && Step(f, q, d, e, p, c);
      ReachRelabel(t, a, b, f, lo, hi, k, c0, w[..|w| - 1], q, d);
    }
  }

  lemma RecognizesRelabel(t: Tables, a: seq<Term>, b: seq<Term>, f: Fragment, lo: int, hi: int,
                          k: nat, k': nat, l: Lang)
    requires 0 <= lo <= hi
    requires Within(f, lo, hi, k) && hi <= |a| && hi <= |b| && a[..hi] == b[..hi] && k <= k'
    requires Recognizes(t, a, f, k, l)
    ensures Recognizes(t, b, f, k', l)
  {
    forall c0: Counters, w: Word | |c0| >= k' && ZeroOn(c0, f.slots) && w != []
      ensures Accepts(t, b, f, c0, w) <==> w in l
    {
      if Accepts(t, b, f, c0, w) {
        var p, c :| Reach(t, b, f, c0, w, p, c) && Ends(f, p, c);
        ReachRelabel(t, b, a, f, lo, hi, k, c0, w, p, c);
        assert Accepts(t, a, f, c0, w);
      }
      if w in l {
        assert Accepts(t, a, f, c0, w);
        var p, c :| Reach(t, a, f, c0, w, p, c) && Ends(f, p, c);
        ReachRelabel(t, a, b, f, lo, hi, k, c0, w, p, c);
      }
    }
  }

  // ----- leaves -----

  function LeafFragment(pos: int): Fragment {
    Fragment({Entry(pos, [], [])}, {Entry(pos, [], [])}, {}, {}, false)
  }

  function EmptyWordFragment(): Fragment {
    Fragment({}, {}, {}, {}, true)
  }

  function NothingFragment(): Fragment {
    Fragment({}, {}, {}, {}, false)
  }

  lemma LeafRecognizes(t: Tables, labels: seq<Term>, pos: nat, k: nat)
    requires pos < |labels|
    ensures Recognizes(t, labels, LeafFragment(pos), k, LeafLang(t, labels[pos]))
  {
    var f := LeafFragment(pos);
    var e := Entry(pos, [], []);
    forall c0: Counters, w: Word | w != []
      ensures Accepts(t, labels, f, c0, w) <==> w in LeafLang(t, labels[pos])
    {
      if w in LeafLang(t, labels[pos]) {
        assert e in f.first && e in f.last;
        assert Starts(f, pos) && Ends(f, pos, c0);
        assert Reach(t, labels, f, c0, w, pos, c0);
      }
    }
  }

  lemma EmptyWordRecognizes(t: Tables, labels: seq<Term>, k: nat)
    ensures Recognizes(t, labels, EmptyWordFragment(), k, EPSILON)
    ensures Recognizes(t, labels, NothingFragment(), k, EMPTY)
  {
  }

  // ----- choice -----

  function ChoiceFragment(a: Fragment, b: Fragment): Fragment {
    Fragment(a.first + b.first, a.last + b.last, a.edges + b.edges, a.slots + b.slots, a.nullable || b.nullable)
  }

  lemma {:induction false} ChoiceReach(t: Tables, labels: seq<Term>, a: Fragment, b: Fragment,
                                       lo: int, mid: int, hi: int, k: nat,
                                       c0: Counters, w: Word, p: int, c: Counters)
    requires Within(a, lo, mid, k) && Within(b, mid, hi, k)
    requires Reach(t, labels, ChoiceFragment(a, b), c0, w, p, c)
    ensures p < mid ==> Reach(t, labels, a, c0, w, p, c)
    ensures p >= mid ==> Reach(t, labels, b, c0, w, p, c)
    decreases |w|
  {
    var f := ChoiceFragment(a, b);
    if |w| == 1 {
      var e :| e in f.first && e.pos == p;
      assert e in a.first ==> Starts(a, p);
      assert e in b.first ==> Starts(b, p);
    } else {
      var q, d, e :| Reach(t, labels, f, c0, w[..|w| - 1], q, d) && Step(f, q, d, e, p, c);
      ChoiceReach(t, labels, a, b, lo, mid, hi, k, c0, w[..|w| - 1], q, d);
      assert Edge(q, e) in a.edges ==> Step(a, q, d, e, p, c);
      assert Edge(q, e) in b.edges ==> Step(b, q, d, e, p, c);
    }
  }

  lemma ChoiceSound(t: Tables, labels: seq<Term>, a: Fragment, b: Fragment,
                    lo: int, mid: int, hi: int, k: nat, c0: Counters, w: Word)
    requires Within(a, lo, mid, k) && Within(b, mid, hi, k)
    requires Accepts(t, labels, ChoiceFragment(a, b), c0, w)
    ensures Accepts(t, labels, a, c0, w) || Accepts(t, labels, b, c0, w)
  {
    var f := ChoiceFragment(a, b);
    var p, c :| Reach(t, labels, f, c0, w, p, c) && Ends(f, p, c);
    ChoiceReach(t, labels, a, b, lo, mid, hi, k, c0, w, p, c);
    var e :| e in f.last && e.pos == p && Enabled(c, e.guards);
    assert e in a.last ==> Ends(a, p, c);
    assert e in b.last ==> Ends(b, p, c);
  }

  lemma AcceptsMonotone(t: Tables, labels: seq<Term>, f: Fragment, g: Fragment, c0: Counters, w: Word)
    requires f.first <= g.first && f.edges <= g.edges && f.last <= g.last
    requires Accepts(t, labels, f, c0, w)
    ensures Accepts(t, labels, g, c0, w)
  {
    var p, c :| Reach(t, labels, f, c0, w, p, c) && Ends(f, p, c);
    ReachMonotone(t, labels, f, g, c0, w, p, c);
    var e :| e in f.last && e.pos == p && Enabled(c, e.guards);
    assert e in g.last;
  }

  lemma ChoiceRecognizes(t: Tables, labels: seq<Term>, a: Fragment, b: Fragment,
                         lo: int, mid: int, hi: int, k: nat, la: Lang, lb: Lang)
    requires Within(a, lo, mid, k) && Within(b, mid, hi, k)
    requires Recognizes(t, labels, a, k, la) && Recognizes(t, labels, b, k, lb)
    ensures Recognizes(t, labels, ChoiceFragment(a, b), k, la + lb)
  {
    var f := ChoiceFragment(a, b);
    forall c0: Counters, w: Word | |c0| >= k && ZeroOn(c0, f.slots) && w != []
      ensures Accepts(t, labels, f, c0, w) <==> w in la + lb
    {
      assert ZeroOn(c0, a.slots) && ZeroOn(c0, b.slots);
      assert Accepts(t, labels, a, c0, w) <==> w in la;
      assert Accepts(t, labels, b, c0, w) <==> w in lb;
      if Accepts(t, labels, f, c0, w) {
        ChoiceSound(t, labels, a, b, lo, mid, hi, k, c0, w);
      }
      if w in la {
        AcceptsMonotone(t, labels, a, f, c0, w);
      }
      if w in lb {
        AcceptsMonotone(t, labels, b, f, c0, w);
      }
    }
  }

  lemma ChoiceWithin(a: Fragment, b: Fragment, lo: int, mid: int, hi: int, k: nat)
    requires lo <= mid <= hi
    requires Within(a, lo, mid, k) && Within(b, mid, hi, k)
    ensures Within(ChoiceFragment(a, b), lo, hi, k)
  {
    var f := ChoiceFragment(a, b);
    forall e | e in f.last
      ensures EntryIn(e, f.slots, lo, hi)
    {
      assert e in a.last ==> EntryIn(e, a.slots, lo, mid);
      assert e in b.last ==> EntryIn(e, b.slots, mid, hi);
    }
    forall d | d in f.edges
      ensures lo <= d.from < hi && EntryIn(d.entry, f.slots, lo, hi)
    {
      assert d in a.edges ==> EntryIn(d.entry, a.slots, lo, mid);
      assert d in b.edges ==> EntryIn(d.entry, b.slots, mid, hi);
    }
  }
}
