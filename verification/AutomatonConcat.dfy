/** Concatenation of position automata: every way of ending the left part leads on
    to every way of starting the right part. */
module AutomatonConcat {
  import opened Schema
  import opened Languages
  import opened PositionAutomaton

  function BridgeEdge(tail: Entry, first: Entry): Edge {
    Edge(tail.pos, ComposeEntry(tail.guards, tail.actions, first))
  }

  function Bridges(last: set<Entry>, first: set<Entry>): set<Edge> {
    set tail, head | tail in last && head in first :: BridgeEdge(tail, head)
  }

  function ConcatFragment(a: Fragment, b: Fragment): Fragment {
    Fragment(
      a.first + (if a.nullable then b.first else {}),
      b.last + (if b.nullable then a.last else {}),
      a.edges + b.edges + Bridges(a.last, b.first),
      a.slots + b.slots,
      a.nullable && b.nullable)
  }

  ghost predicate Adjacent(a: Fragment, b: Fragment, lo: int, mid: int, hi: int, k: nat) {
    Within(a, lo, mid, k) && Within(b, mid, hi, k) && a.slots !! b.slots
  }

  /** A bridge keeps the left part's guards and actions. */
  lemma ComposePlain(tail: Entry, head: Entry)
    requires Plain(head)
    ensures var e := BridgeEdge(tail, head).entry;
            && e.pos == head.pos && e.actions == tail.actions
            && forall g :: g in e.guards <==> g in tail.guards
  {
    assert tail.actions + [] == tail.actions;
  }

  lemma ConcatWithin(a: Fragment, b: Fragment, lo: int, mid: int, hi: int, k: nat)
    requires lo <= mid <= hi
    requires Adjacent(a, b, lo, mid, hi, k)
    ensures Within(ConcatFragment(a, b), lo, hi, k)
  {
    var f := ConcatFragment(a, b);
    forall d | d in f.edges
      ensures lo <= d.from < hi && EntryIn(d.entry, f.slots, lo, hi)
    {
      if d in Bridges(a.last, b.first) {
        var tail, head :| tail in a.last && head in b.first && d == BridgeEdge(tail, head);
        ComposePlain(tail, head);
        assert EntryIn(tail, a.slots, lo, mid);
      } else if d in a.edges {
        assert EntryIn(d.entry, a.slots, lo, mid);
      } else {
        assert EntryIn(d.entry, b.slots, mid, hi);
      }
    }
    forall e | e in f.last
      ensures EntryIn(e, f.slots, lo, hi)
    {
      assert e in a.last ==> EntryIn(e, a.slots, lo, mid);
      assert e in b.last ==> EntryIn(e, b.slots, mid, hi);
    }
  }

  // ----- soundness: a run splits where it crosses over -----

  /** w was read as a left word (possibly empty) and then a run of the right part. */
  ghost predicate Crossed(t: Tables, labels: seq<Term>, a: Fragment, b: Fragment, la: Lang,
                          c0: Counters, w: Word, p: int, c: Counters, i: nat, c1: Counters) {
    && i < |w| && w[..i] in la && AgreeOff(c1, c0, a.slots)
    && Reach(t, labels, b, c1, w[i..], p, c)
  }

  lemma {:induction false} ConcatReach(t: Tables, labels: seq<Term>, a: Fragment, b: Fragment,
                                       lo: int, mid: int, hi: int, k: nat, la: Lang,
                                       c0: Counters, w: Word, p: int, c: Counters)
    requires Adjacent(a, b, lo, mid, hi, k)
    requires Recognizes(t, labels, a, k, la)
    requires |c0| >= k && ZeroOn(c0, a.slots)
    requires Reach(t, labels, ConcatFragment(a, b), c0, w, p, c)
    ensures p < mid ==> Reach(t, labels, a, c0, w, p, c)
    ensures p >= mid ==> exists i: nat, c1: Counters :: Crossed(t, labels, a, b, la, c0, w, p, c, i, c1)
    decreases |w|
  {
    var f := ConcatFragment(a, b);
    if |w| == 1 {
      var e :| e in f.first && e.pos == p;
      if p < mid {
        assert Starts(a, p);
      } else {
        assert e in b.first && a.nullable && Starts(b, p);
        assert w[..0] == [] && w[0..] == w;
        assert Crossed(t, labels, a, b, la, c0, w, p, c, 0, c0);
      }
    } else {
      var n := |w| - 1;
      var q, d, e :| Reach(t, labels, f, c0, w[..n], q, d) && Step(f, q, d, e, p, c);
      ConcatReach(t, labels, a, b, lo, mid, hi, k, la, c0, w[..n], q, d);
      if Edge(q, e) in a.edges {
        assert EntryIn(Edge(q, e).entry, a.slots, lo, mid);
        assert Step(a, q, d, e, p, c);
      } else if Edge(q, e) in b.edges {
        assert EntryIn(Edge(q, e).entry, b.slots, mid, hi);
        var i: nat, c1: Counters :| Crossed(t, labels, a, b, la, c0, w[..n], q, d, i, c1);
        ConcatStay(t, labels, a, b, la, c0, w, p, c, q, d, e, i, c1);
      } else {
        ConcatCross(t, labels, a, b, lo, mid, hi, k, la, c0, w, p, c, q, d, e);
      }
    }
  }

  /** A step inside the right part. */
  lemma ConcatStay(t: Tables, labels: seq<Term>, a: Fragment, b: Fragment, la: Lang,
                   c0: Counters, w: Word, p: int, c: Counters, q: int, d: Counters, e: Entry, i: nat, c1: Counters)
    requires |w| > 1 && Hits(t, labels, p, w[|w| - 1])
    requires Crossed(t, labels, a, b, la, c0, w[..|w| - 1], q, d, i, c1)
    requires Step(b, q, d, e, p, c)
    ensures Crossed(t, labels, a, b, la, c0, w, p, c, i, c1)
  {
    var n := |w| - 1;
    assert w[..n][..i] == w[..i];
    assert w[..n][i..] == w[i..][..|w[i..]| - 1];
  }

  /** The step over a bridge: what was read so far is a whole left word. */
  lemma {:induction false} ConcatCross(t: Tables, labels: seq<Term>, a: Fragment, b: Fragment,
                    lo: int, mid: int, hi: int, k: nat, la: Lang,
                    c0: Counters, w: Word, p: int, c: Counters, q: int, d: Counters, e: Entry)
    requires Adjacent(a, b, lo, mid, hi, k)
    requires Recognizes(t, labels, a, k, la)
    requires |c0| >= k && ZeroOn(c0, a.slots)
    requires |w| > 1 && Hits(t, labels, p, w[|w| - 1])
    requires q < mid ==> Reach(t, labels, a, c0, w[..|w| - 1], q, d)
    requires Edge(q, e) in Bridges(a.last, b.first) && e.pos == p && Enabled(d, e.guards) && c == Apply(d, e.actions)
    ensures p >= mid
    ensures exists i: nat, c1: Counters :: Crossed(t, labels, a, b, la, c0, w, p, c, i, c1)
  {
    var n := |w| - 1;
    var tail, head :| tail in a.last && head in b.first && Edge(q, e) == BridgeEdge(tail, head);
    ComposePlain(tail, head);
    assert EntryIn(tail, a.slots, lo, mid);
    assert Ends(a, q, d);
    assert Accepts(t, labels, a, c0, w[..n]);
    ReachFrame(t, labels, a, lo, mid, k, c0, w[..n], q, d);
    ApplyFrame(d, e.actions, a.slots);
    assert Starts(b, p);
    assert Reach(t, labels, b, c, w[n..], p, c);
    assert Crossed(t, labels, a, b, la, c0, w, p, c, n, c);
  }

  // ----- completeness: a left word followed by a right run is a run -----

  lemma {:induction false} ConcatLift(t: Tables, labels: seq<Term>, a: Fragment, b: Fragment,
                                      lo: int, mid: int, hi: int, k: nat,
                                      c0: Counters, u: Word, q: int, d: Counters, tail: Entry,
                                      v: Word, p: int, c: Counters)
    requires Adjacent(a, b, lo, mid, hi, k)
    requires Reach(t, labels, ConcatFragment(a, b), c0, u, q, d)
    requires tail in a.last && tail.pos == q && Enabled(d, tail.guards)
    requires Reach(t, labels, b, Apply(d, tail.actions), v, p, c)
    ensures Reach(t, labels, ConcatFragment(a, b), c0, u + v, p, c)
    decreases |v|
  {
    var f := ConcatFragment(a, b);
    var x := v[|v| - 1];
    if |v| == 1 {
      var head :| head in b.first && head.pos == p;
      ComposePlain(tail, head);
      var bridge := BridgeEdge(tail, head);
      assert bridge in f.edges;
      AppendLast(u, v);
      ReachExtend(t, labels, f, c0, u, q, d, bridge.entry, x, p, c);
    } else {
      var v' := v[..|v| - 1];
      var q', d', e' :| Reach(t, labels, b, Apply(d, tail.actions), v', q', d') && Step(b, q', d', e', p, c);
      ConcatLift(t, labels, a, b, lo, mid, hi, k, c0, u, q, d, tail, v', q', d');
      AppendLast(u, v);
      ReachExtend(t, labels, f, c0, u + v', q', d', e', x, p, c);
    }
  }

  lemma {:induction false} ConcatComplete(t: Tables, labels: seq<Term>, a: Fragment, b: Fragment,
                       lo: int, mid: int, hi: int, k: nat, la: Lang, lb: Lang,
                       c0: Counters, u: Word, v: Word)
    requires Adjacent(a, b, lo, mid, hi, k)
    requires Recognizes(t, labels, a, k, la) && Recognizes(t, labels, b, k, lb)
    requires |c0| >= k && ZeroOn(c0, a.slots) && ZeroOn(c0, b.slots)
    requires u in la && v in lb && u + v != []
    ensures Accepts(t, labels, ConcatFragment(a, b), c0, u + v)
  {
    var f := ConcatFragment(a, b);
    if v == [] {
      assert u + v == u;
      assert Accepts(t, labels, a, c0, u);
      var p, c :| Reach(t, labels, a, c0, u, p, c) && Ends(a, p, c);
      ReachMonotone(t, labels, a, f, c0, u, p, c);
      assert Ends(f, p, c);
    } else if u == [] {
      assert u + v == v;
      assert Accepts(t, labels, b, c0, v);
      var p, c :| Reach(t, labels, b, c0, v, p, c) && Ends(b, p, c);
      ReachMonotone(t, labels, b, f, c0, v, p, c);
      assert Ends(f, p, c);
    } else {
      assert Accepts(t, labels, a, c0, u);
      var q, d :| Reach(t, labels, a, c0, u, q, d) && Ends(a, q, d);
      var tail :| tail in a.last && tail.pos == q && Enabled(d, tail.guards);
      ReachMonotone(t, labels, a, f, c0, u, q, d);
      ReachFrame(t, labels, a, lo, mid, k, c0, u, q, d);
      assert EntryIn(tail, a.slots, lo, mid);
      ApplyFrame(d, tail.actions, a.slots);
      var c1 := Apply(d, tail.actions);
      assert ZeroOn(c1, b.slots);
      assert Accepts(t, labels, b, c1, v);
      var p, c :| Reach(t, labels, b, c1, v, p, c) && Ends(b, p, c);
      ConcatLift(t, labels, a, b, lo, mid, hi, k, c0, u, q, d, tail, v, p, c);
      assert Ends(f, p, c);
    }
  }

  lemma ConcatSound(t: Tables, labels: seq<Term>, a: Fragment, b: Fragment,
                    lo: int, mid: int, hi: int, k: nat, la: Lang, lb: Lang, c0: Counters, w: Word)
    requires Adjacent(a, b, lo, mid, hi, k)
    requires Recognizes(t, labels, a, k, la) && Recognizes(t, labels, b, k, lb)
    requires |c0| >= k && ZeroOn(c0, a.slots) && ZeroOn(c0, b.slots)
    requires Accepts(t, labels, ConcatFragment(a, b), c0, w)
    ensures w in Cat(la, lb)
  {
    var f := ConcatFragment(a, b);
    var p, c :| Reach(t, labels, f, c0, w, p, c) && Ends(f, p, c);
    ConcatReach(t, labels, a, b, lo, mid, hi, k, la, c0, w, p, c);
    ConcatEnds(a, b, lo, mid, hi, k, p, c);
    if p < mid {
      AcceptedWord(t, labels, a, k, la, c0, w, p, c);
      CatIntro(la, lb, w, []);
      assert w + [] == w;
    } else {
      var i: nat, c1: Counters :| Crossed(t, labels, a, b, la, c0, w, p, c, i, c1);
      assert ZeroOn(c1, b.slots);
      AcceptedWord(t, labels, b, k, lb, c1, w[i..], p, c);
      CatIntro(la, lb, w[..i], w[i..]);
      SplitWord(w, i);
    }
  }

  lemma ConcatEnds(a: Fragment, b: Fragment, lo: int, mid: int, hi: int, k: nat, p: int, c: Counters)
    requires Adjacent(a, b, lo, mid, hi, k)
    requires Ends(ConcatFragment(a, b), p, c)
    ensures p < mid ==> b.nullable && Ends(a, p, c)
    ensures p >= mid ==> Ends(b, p, c)
  {
    var e :| e in ConcatFragment(a, b).last && e.pos == p && Enabled(c, e.guards);
    assert e in a.last ==> EntryIn(e, a.slots, lo, mid);
    assert e in b.last ==> EntryIn(e, b.slots, mid, hi);
  }

  lemma ConcatRecognizes(t: Tables, labels: seq<Term>, a: Fragment, b: Fragment,
                         lo: int, mid: int, hi: int, k: nat, la: Lang, lb: Lang)
    requires Adjacent(a, b, lo, mid, hi, k)
    requires Recognizes(t, labels, a, k, la) && Recognizes(t, labels, b, k, lb)
    ensures Recognizes(t, labels, ConcatFragment(a, b), k, Cat(la, lb))
  {
    var f := ConcatFragment(a, b);
    CatHasEmpty(la, lb);
    forall c0: Counters, w: Word | |c0| >= k && ZeroOn(c0, f.slots) && w != []
      ensures Accepts(t, labels, f, c0, w) <==> w in Cat(la, lb)
    {
      assert ZeroOn(c0, a.slots) && ZeroOn(c0, b.slots);
      if w in Cat(la, lb) {
        var u, v := CatElim(la, lb, w);
        ConcatComplete(t, labels, a, b, lo, mid, hi, k, la, lb, c0, u, v);
      }
      if Accepts(t, labels, f, c0, w) {
        ConcatSound(t, labels, a, b, lo, mid, hi, k, la, lb, c0, w);
      }
    }
  }
}
