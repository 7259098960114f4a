/** One step of direct compilation: a new row for a particle, reached from every
    active row, looping on itself when the particle repeats. */
module CountedRows {
  import opened Schema
  import opened Languages
  import opened ContentLanguage
  import opened CompiledRows
  import opened AutomatonRepeat

  /** The machine reads everything of a row except its acceptance and its index. */
  ghost predicate SameMoves(a: Row, b: Row) {
    a.edges == b.edges && SameCount(a, b)
  }

  ghost predicate SameCount(a: Row, b: Row) {
    a.counted == b.counted && a.countTerm == b.countTerm && a.min == b.min && a.max == b.max && a.unbounded == b.unbounded
  }

  function ParticleRow(term: Term, o: Occurrence, accept: bool): Row {
    if RepeatNeedsCounter(o) then PLAIN_ROW.(counted := true, countTerm := Some(term), min := o.min, max := o.max, unbounded := o.unbounded, accept := accept)
    else PLAIN_ROW.(accept := accept)
  }

  predicate EdgesInRange(rows: seq<Row>) {
    forall s, j :: 0 <= s < |rows| && 0 <= j < |rows[s].edges| ==> rows[s].edges[j].to < |rows|
  }

  datatype GrowCase = GrowCase(t: Tables, rows: seq<Row>, active: seq<nat>, term: Term, o: Occurrence, rows': seq<Row>)

  ghost predicate Grown(g: GrowCase) {
    match g case GrowCase(t, rows, active, term, o, rows') =>
      var edge := RowEdge(term, |rows|);
      && |rows| > 0 && |rows'| == |rows| + 1 && EdgesInRange(rows)
      && o.Valid() && !o.IsZero() && !term.ModelTerm?
      && (forall s :: 0 <= s < |rows| ==> SameCount(rows[s], rows'[s]))
      && (forall s :: 0 <= s < |rows| ==> rows'[s].edges == if s in active then rows[s].edges + [edge] else rows[s].edges)
      && SameCount(rows'[|rows|], ParticleRow(term, o, false))
      && rows'[|rows|].edges == if Loops(o) then [edge] else []
  }

  type Growth = g: GrowCase | Grown(g) ghost witness GrowthWitness()

  ghost function GrowthWitness(): (g: GrowCase)
    ensures Grown(g)
  {
    GrowCase(Tables([], [], [], map[], []), [PLAIN_ROW], [], ElementTerm(0), ONE, [PLAIN_ROW, PLAIN_ROW])
  }

  /** A state whose row may be left. */
  ghost predicate Leaves(rows: seq<Row>, active: seq<nat>, st: State) {
    st.row < |rows| && st.row in active && (rows[st.row].counted ==> st.count >= rows[st.row].min)
  }

  /** After w, the machine may be in an active row that can be left. */
  ghost predicate Ready(t: Tables, rows: seq<Row>, active: seq<nat>, w: Word) {
    exists st :: RowReach(t, rows, 0, w, st) && Leaves(rows, active, st)
  }

  ghost function ReadyLang(t: Tables, rows: seq<Row>, active: seq<nat>): Lang {
    iset w: Word | Ready(t, rows, active, w)
  }

  // ----- old rows keep their states -----

  lemma {:induction false} OldStep(g: Growth, st: State, e: RowEdge, x: Input, st': State)
    requires st.row < |g.rows|
    requires st'.row < |g.rows|
    ensures Takes(g.t, g.rows', st, e, x, st') <==> Takes(g.t, g.rows, st, e, x, st')
  {
    if Takes(g.t, g.rows', st, e, x, st') {
      assert e.to == st'.row;
      assert SameCount(g.rows[st.row], g.rows'[st.row]) && SameCount(g.rows[e.to], g.rows'[e.to]);
    }
    if Takes(g.t, g.rows, st, e, x, st') {
      assert SameCount(g.rows[st.row], g.rows'[st.row]) && SameCount(g.rows[e.to], g.rows'[e.to]);
    }
  }

  lemma ComesFromOld(g: Growth, st: State, e: RowEdge, x: Input, st': State)
    requires Takes(g.t, g.rows', st, e, x, st') && st'.row < |g.rows|
    ensures st.row < |g.rows|
  {
    assert forall d :: d in g.rows'[|g.rows|].edges ==> d.to == |g.rows|;
  }

  lemma {:induction false} OldReach(g: Growth, w: Word, st: State)
    requires st.row < |g.rows|
    ensures RowReach(g.t, g.rows', 0, w, st) <==> RowReach(g.t, g.rows, 0, w, st)
    decreases |w|
  {
    if w != [] {
      var n := |w| - 1;
      if RowReach(g.t, g.rows', 0, w, st) {
        assert RowReachThen(g.t, g.rows', 0, w[..n], w[n], st);
        var prev, e :| RowReach(g.t, g.rows', 0, w[..n], prev) && Takes(g.t, g.rows', prev, e, w[n], st);
        ComesFromOld(g, prev, e, w[n], st);
        OldReach(g, w[..n], prev);
        OldStep(g, prev, e, w[n], st);
        assert RowReachThen(g.t, g.rows, 0, w[..n], w[n], st);
      }
      if RowReach(g.t, g.rows, 0, w, st) {
        assert RowReachThen(g.t, g.rows, 0, w[..n], w[n], st);
        var prev, e :| RowReach(g.t, g.rows, 0, w[..n], prev) && Takes(g.t, g.rows, prev, e, w[n], st);
        OldReach(g, w[..n], prev);
        OldStep(g, prev, e, w[n], st);
        assert RowReachThen(g.t, g.rows', 0, w[..n], w[n], st);
      }
    }
  }

  // ----- what reaches the new row -----

  /** The count after matching the particle's term n times. */
  function CountAfter(o: Occurrence, n: nat): Uint32 {
    if !RepeatNeedsCounter(o) then 0 else if n < MAX_UINT32 then n else MAX_UINT32
  }

  predicate MayRepeat(o: Occurrence, n: nat) {
    n == 1 || o.unbounded || n <= o.max
  }

  ghost predicate AllMatch(t: Tables, term: Term, v: Word) {
    forall i :: 0 <= i < |v| ==> TermMatches(t, term, v[i])
  }

  /** The last n children of w match the term, after a word that leaves the old rows. */
  ghost predicate Entered(g: Growth, w: Word, n: nat) {
    match g case GrowCase(t, rows, active, term, o, _) =>
      && 1 <= n <= |w| && MayRepeat(o, n)
      && Ready(t, rows, active, w[..|w| - n])
      && AllMatch(t, term, w[|w| - n..])
  }

  lemma EnterStep(g: Growth, st: State, x: Input)
    requires Leaves(g.rows, g.active, st) && TermMatches(g.t, g.term, x)
    ensures Takes(g.t, g.rows', st, RowEdge(g.term, |g.rows|), x, State(|g.rows|, CountAfter(g.o, 1)))
  {
    var edge := RowEdge(g.term, |g.rows|);
    assert SameCount(g.rows[st.row], g.rows'[st.row]);
    assert edge in g.rows'[st.row].edges;
  }

  lemma LoopStep(g: Growth, n: nat, x: Input)
    requires n >= 1 && MayRepeat(g.o, n + 1) && TermMatches(g.t, g.term, x)
    ensures Takes(g.t, g.rows', State(|g.rows|, CountAfter(g.o, n)), RowEdge(g.term, |g.rows|), x,
                  State(|g.rows|, CountAfter(g.o, n + 1)))
  {
    assert RowEdge(g.term, |g.rows|) in g.rows'[|g.rows|].edges;
  }

  /** Cutting one more child off the end. */
  lemma CutBack(w: Word, m: nat)
    requires m < |w|
    ensures w[..|w| - 1][..|w| - 1 - m] == w[..|w| - (m + 1)]
    ensures w[|w| - (m + 1)..] == w[..|w| - 1][|w| - 1 - m..] + [w[|w| - 1]]
  {
  }

  lemma EnteredBefore(g: Growth, w: Word, n: nat)
    requires n > 1 && Entered(g, w, n)
    ensures Entered(g, w[..|w| - 1], n - 1) && TermMatches(g.t, g.term, w[|w| - 1]) && MayRepeat(g.o, n)
  {
    CutBack(w, n - 1);
    var tail := w[..|w| - 1][|w| - 1 - (n - 1)..];
    assert w[|w| - n..][n - 1] == w[|w| - 1];
    forall i | 0 <= i < |tail|
      ensures TermMatches(g.t, g.term, tail[i])
    {
      assert tail[i] == w[|w| - n..][i];
    }
  }

  lemma {:induction false} ReachOn(g: Growth, w: Word, prev: State, st: State)
    requires w != [] && RowReach(g.t, g.rows', 0, w[..|w| - 1], prev)
    requires Takes(g.t, g.rows', prev, RowEdge(g.term, |g.rows|), w[|w| - 1], st)
    ensures RowReach(g.t, g.rows', 0, w, st)
  {
    assert RowReachThen(g.t, g.rows', 0, w[..|w| - 1], w[|w| - 1], st);
  }

  lemma {:induction false} EnteredReach(g: Growth, w: Word)
    requires Entered(g, w, 1)
    ensures RowReach(g.t, g.rows', 0, w, State(|g.rows|, CountAfter(g.o, 1)))
  {
    var k := |w| - 1;
    assert w[k] == w[|w| - 1..][0];
    var st :| RowReach(g.t, g.rows, 0, w[..k], st) && Leaves(g.rows, g.active, st);
    OldReach(g, w[..k], st);
    EnterStep(g, st, w[k]);
    ReachOn(g, w, st, State(|g.rows|, CountAfter(g.o, 1)));
  }

  lemma {:induction false} LoopReach(g: Growth, w: Word, n: nat)
    requires w != [] && n >= 1 && MayRepeat(g.o, n + 1) && TermMatches(g.t, g.term, w[|w| - 1])
    requires RowReach(g.t, g.rows', 0, w[..|w| - 1], State(|g.rows|, CountAfter(g.o, n)))
    ensures RowReach(g.t, g.rows', 0, w, State(|g.rows|, CountAfter(g.o, n + 1)))
  {
    LoopStep(g, n, w[|w| - 1]);
    ReachOn(g, w, State(|g.rows|, CountAfter(g.o, n)), State(|g.rows|, CountAfter(g.o, n + 1)));
  }

  lemma {:induction false} NewReachComplete(g: Growth, w: Word, n: nat)
    requires Entered(g, w, n)
    ensures RowReach(g.t, g.rows', 0, w, State(|g.rows|, CountAfter(g.o, n)))
    decreases n
  {
    if n == 1 {
      EnteredReach(g, w);
    } else {
      EnteredBefore(g, w, n);
      NewReachComplete(g, w[..|w| - 1], n - 1);
      LoopReach(g, w, n - 1);
    }
  }

  lemma IntoNew(g: Growth, prev: State, e: RowEdge, x: Input, st: State)
    requires Takes(g.t, g.rows', prev, e, x, st) && st.row == |g.rows|
    ensures e == RowEdge(g.term, |g.rows|) && TermMatches(g.t, g.term, x)
    ensures prev.row < |g.rows| ==> Leaves(g.rows, g.active, prev) && st.count == CountAfter(g.o, 1)
    ensures prev.row >= |g.rows| ==> prev.row == |g.rows| && Loops(g.o)
  {
    assert e.to == |g.rows|;
    if prev.row < |g.rows| {
      assert SameCount(g.rows[prev.row], g.rows'[prev.row]);
      assert e !in g.rows[prev.row].edges;
    }
  }

  lemma LoopStepOnly(g: Growth, n: nat, st: State, x: Input)
    requires n >= 1 && Loops(g.o)
    requires Takes(g.t, g.rows', State(|g.rows|, CountAfter(g.o, n)), RowEdge(g.term, |g.rows|), x, st)
    requires MayRepeat(g.o, n)
    ensures MayRepeat(g.o, n + 1) && st == State(|g.rows|, CountAfter(g.o, n + 1))
  {
  }

  /** How the new row was reached: from an active row, or by its loop. */
  ghost predicate CameFrom(g: Growth, prev: State, st: State) {
    if prev.row < |g.rows| then Leaves(g.rows, g.active, prev) && st.count == CountAfter(g.o, 1)
    else prev.row == |g.rows| && forall n :: n >= 1 && MayRepeat(g.o, n) && prev.count == CountAfter(g.o, n) ==>
           MayRepeat(g.o, n + 1) && st.count == CountAfter(g.o, n + 1)
  }

  lemma LastStep(g: Growth, w: Word, st: State) returns (prev: State)
    requires RowReach(g.t, g.rows', 0, w, st) && st.row == |g.rows|
    ensures w != [] && TermMatches(g.t, g.term, w[|w| - 1])
    ensures RowReach(g.t, g.rows', 0, w[..|w| - 1], prev) && CameFrom(g, prev, st)
  {
    var k := |w| - 1;
    assert RowReachThen(g.t, g.rows', 0, w[..k], w[k], st);
    var e;
    prev, e :| RowReach(g.t, g.rows', 0, w[..k], prev) && Takes(g.t, g.rows', prev, e, w[k], st);
    IntoNew(g, prev, e, w[k], st);
    if prev.row >= |g.rows| {
      forall n | n >= 1 && MayRepeat(g.o, n) && prev.count == CountAfter(g.o, n)
        ensures MayRepeat(g.o, n + 1) && st.count == CountAfter(g.o, n + 1)
      {
        LoopStepOnly(g, n, st, w[k]);
      }
    }
  }

  lemma {:induction false} NewReachSound(g: Growth, w: Word, st: State) returns (n: nat)
    requires RowReach(g.t, g.rows', 0, w, st) && st.row == |g.rows|
    ensures Entered(g, w, n) && st.count == CountAfter(g.o, n)
    decreases |w|
  {
    var prev := LastStep(g, w, st);
    if prev.row < |g.rows| {
      n := 1;
      EnteredOnce(g, w, prev);
    } else {
      var m := NewReachSound(g, w[..|w| - 1], prev);
      n := m + 1;
      CameAgain(g, w[..|w| - 1], prev, st, m);
      EnteredAgain(g, w, m);
    }
  }

  lemma CameAgain(g: Growth, w: Word, prev: State, st: State, m: nat)
    requires Entered(g, w, m) && prev.count == CountAfter(g.o, m) && CameFrom(g, prev, st) && prev.row >= |g.rows|
    ensures MayRepeat(g.o, m + 1) && st.count == CountAfter(g.o, m + 1)
  {
  }

  lemma EnteredOnce(g: Growth, w: Word, prev: State)
    requires w != [] && RowReach(g.t, g.rows', 0, w[..|w| - 1], prev) && Leaves(g.rows, g.active, prev)
    requires TermMatches(g.t, g.term, w[|w| - 1])
    ensures Entered(g, w, 1)
  {
    OldReach(g, w[..|w| - 1], prev);
    assert w[|w| - 1..] == [w[|w| - 1]];
    assert Ready(g.t, g.rows, g.active, w[..|w| - 1]);
  }

  lemma EnteredAgain(g: Growth, w: Word, m: nat)
    requires w != [] && Entered(g, w[..|w| - 1], m)
    requires MayRepeat(g.o, m + 1) && TermMatches(g.t, g.term, w[|w| - 1])
    ensures Entered(g, w, m + 1)
  {
    CutBack(w, m);
    MatchOneMore(g.t, g.term, w[..|w| - 1][|w| - 1 - m..], w[|w| - 1]);
  }

  lemma MatchOneMore(t: Tables, term: Term, v: Word, x: Input)
    requires AllMatch(t, term, v) && TermMatches(t, term, x)
    ensures AllMatch(t, term, v + [x])
  {
  }

  // ----- the language of the new row -----

  lemma {:induction false} LeafPower(t: Tables, term: Term, k: nat, v: Word)
    ensures v in Power(LeafLang(t, term), k) <==> |v| == k && AllMatch(t, term, v)
    decreases k
  {
    var l := LeafLang(t, term);
    if k > 0 {
      if v in Power(l, k) {
        var i :| Splits(Power(l, k - 1), l, v, i);
        LeafPower(t, term, k - 1, v[..i]);
        assert v[k - 1] == v[i..][0];
        forall j | 0 <= j < |v|
          ensures TermMatches(t, term, v[j])
        {
          assert j < k - 1 ==> v[j] == v[..i][j];
        }
      }
      if |v| == k && AllMatch(t, term, v) {
        LeafPower(t, term, k - 1, v[..k - 1]);
        assert v[k - 1..] == [v[k - 1]];
        assert Splits(Power(l, k - 1), l, v, k - 1);
      }
    }
  }

  /** The states of the new row that may be left are those after an allowed number of
      matches. */
  lemma NewReady(g: Growth, w: Word)
    ensures Ready(g.t, g.rows', [|g.rows|], w) <==> exists n :: Entered(g, w, n) && g.o.Contains(n)
  {
    var to := |g.rows|;
    assert SameCount(g.rows'[to], ParticleRow(g.term, g.o, false));
    if Ready(g.t, g.rows', [to], w) {
      var st :| RowReach(g.t, g.rows', 0, w, st) && Leaves(g.rows', [to], st);
      var n := NewReachSound(g, w, st);
      assert g.o.Contains(n);
    }
    if n :| Entered(g, w, n) && g.o.Contains(n) {
      NewReachComplete(g, w, n);
      assert Leaves(g.rows', [to], State(to, CountAfter(g.o, n)));
    }
  }

  lemma EnteredInCat(g: Growth, w: Word, n: nat)
    requires Entered(g, w, n) && g.o.Contains(n)
    ensures w in Cat(ReadyLang(g.t, g.rows, g.active), Rep(LeafLang(g.t, g.term), g.o))
  {
    LeafPower(g.t, g.term, n, w[|w| - n..]);
    assert Splits(ReadyLang(g.t, g.rows, g.active), Rep(LeafLang(g.t, g.term), g.o), w, |w| - n);
  }

  lemma SkippedInCat(g: Growth, w: Word)
    requires g.o.min == 0 && Ready(g.t, g.rows, g.active, w)
    ensures w in Cat(ReadyLang(g.t, g.rows, g.active), Rep(LeafLang(g.t, g.term), g.o))
  {
    assert w[..|w|] == w && w[|w|..] == [];
    assert [] in Power(LeafLang(g.t, g.term), 0);
    assert Splits(ReadyLang(g.t, g.rows, g.active), Rep(LeafLang(g.t, g.term), g.o), w, |w|);
  }

  /** Appending a particle's row appends the particle. When the particle may be absent
      the rows active before stay active. */
  lemma GrownLang(g: Growth, active': seq<nat>)
    requires forall s :: s in active' <==> s == |g.rows| || (g.o.min == 0 && s in g.active)
    requires forall s :: s in g.active ==> s < |g.rows|
    ensures ReadyLang(g.t, g.rows', active') == Cat(ReadyLang(g.t, g.rows, g.active), Rep(LeafLang(g.t, g.term), g.o))
  {
    var l := ReadyLang(g.t, g.rows, g.active);
    var r := Rep(LeafLang(g.t, g.term), g.o);
    forall w: Word
      ensures w in ReadyLang(g.t, g.rows', active') <==> w in Cat(l, r)
    {
      GrownReady(g, active', w);
      if w in Cat(l, r) {
        var i :| Splits(l, r, w, i);
        EnteredOrSkipped(g, w, i);
      }
      if n: nat :| Entered(g, w, n) && g.o.Contains(n) {
        EnteredInCat(g, w, n);
      }
      if g.o.min == 0 && Ready(g.t, g.rows, g.active, w) {
        SkippedInCat(g, w);
      }
    }
  }

  lemma {:induction false} GrownReady(g: Growth, active': seq<nat>, w: Word)
    requires forall s :: s in active' <==> s == |g.rows| || (g.o.min == 0 && s in g.active)
    requires forall s :: s in g.active ==> s < |g.rows|
    ensures Ready(g.t, g.rows', active', w) <==>
            (exists n :: Entered(g, w, n) && g.o.Contains(n)) || (g.o.min == 0 && Ready(g.t, g.rows, g.active, w))
  {
    NewReady(g, w);
    if Ready(g.t, g.rows', active', w) {
      var st :| RowReach(g.t, g.rows', 0, w, st) && Leaves(g.rows', active', st);
      if st.row == |g.rows| {
        assert Leaves(g.rows', [|g.rows|], st);
      } else {
        OldReach(g, w, st);
        assert SameCount(g.rows[st.row], g.rows'[st.row]);
        assert Leaves(g.rows, g.active, st);
      }
    }
    if Ready(g.t, g.rows', [|g.rows|], w) {
      var st :| RowReach(g.t, g.rows', 0, w, st) && Leaves(g.rows', [|g.rows|], st);
      assert Leaves(g.rows', active', st);
    }
    if g.o.min == 0 && Ready(g.t, g.rows, g.active, w) {
      var st :| RowReach(g.t, g.rows, 0, w, st) && Leaves(g.rows, g.active, st);
      OldReach(g, w, st);
      assert SameCount(g.rows[st.row], g.rows'[st.row]);
      assert Leaves(g.rows', active', st);
    }
  }

  lemma EnteredOrSkipped(g: Growth, w: Word, i: int)
    requires Splits(ReadyLang(g.t, g.rows, g.active), Rep(LeafLang(g.t, g.term), g.o), w, i)
    ensures (exists n :: Entered(g, w, n) && g.o.Contains(n)) || (g.o.min == 0 && Ready(g.t, g.rows, g.active, w))
  {
    var k: nat :| g.o.Contains(k) && w[i..] in Power(LeafLang(g.t, g.term), k);
    LeafPower(g.t, g.term, k, w[i..]);
    if k == 0 {
      assert w[..i] == w;
    } else {
      assert Entered(g, w, k);
    }
  }

  // ----- acceptance and indexes do not move the machine -----

  lemma {:induction false} ReachSameMoves(t: Tables, a: seq<Row>, b: seq<Row>, start: nat, w: Word, st: State)
    requires |a| == |b| && forall s :: 0 <= s < |a| ==> SameMoves(a[s], b[s])
    requires RowReach(t, a, start, w, st)
    ensures RowReach(t, b, start, w, st)
    decreases |w|
  {
    if w != [] {
      var n := |w| - 1;
      assert RowReachThen(t, a, start, w[..n], w[n], st);
      var prev, e :| RowReach(t, a, start, w[..n], prev) && Takes(t, a, prev, e, w[n], st);
      ReachSameMoves(t, a, b, start, w[..n], prev);
      assert SameMoves(a[prev.row], b[prev.row]) && SameMoves(a[e.to], b[e.to]);
      assert Takes(t, b, prev, e, w[n], st);
      assert RowReachThen(t, b, start, w[..n], w[n], st);
    }
  }
}
