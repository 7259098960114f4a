/** Counters that stop at the largest value any guard can tell apart. */
module CappedCounters {
  import opened Schema
  import opened PositionAutomaton
  import opened SourceRows

  function Cap(n: nat, cap: nat): nat {
    if n < cap then n else cap
  }

  function Capped(c: Counters, caps: Counters): (r: Counters)
    requires |c| == |caps|
    ensures |r| == |c|
  {
    seq(|c|, i requires 0 <= i < |c| => Cap(c[i], caps[i]))
  }

  predicate GuardsOk(c: Counters, caps: Counters, guards: seq<Guard>) {
    forall g :: g in guards ==> g.slot < |caps| && GuardHolds(c, g)
  }

  function ApplyCapped(c: Counters, caps: Counters, actions: seq<Action>): (r: Option<Counters>)
    requires |c| == |caps|
    ensures r.Some? ==> |r.value| == |c|
    decreases |actions|
  {
    if actions == [] then Some(c)
    else
      var a := actions[0];
      if a.slot >= |c| then None
      else
        var n := match a.kind
          case Inc => if c[a.slot] < caps[a.slot] then c[a.slot] + 1 else c[a.slot]
          case Reset => 0;
        ApplyCapped(c[a.slot := n], caps, actions[1..])
  }

  /** Every guard's threshold is within the cap of its slot. */
  ghost predicate GuardsCapped(caps: Counters, guards: seq<Guard>) {
    forall g :: g in guards && g.slot < |caps| && g.n != 0 ==> g.n - 1 <= caps[g.slot]
  }

  ghost predicate RowCapped(caps: Counters, row: SourceRow) {
    && (forall e :: e in row.edges ==> GuardsCapped(caps, e.guards))
    && (forall g :: g in row.accept ==> GuardsCapped(caps, g))
  }

  /** Caps never change a guard's outcome. */
  lemma CappedGuards(c: Counters, caps: Counters, guards: seq<Guard>)
    requires |c| == |caps| && GuardsCapped(caps, guards)
    ensures GuardsOk(Capped(c, caps), caps, guards) <==> Enabled(c, guards)
  {
    forall g | g in guards
      ensures (g.slot < |caps| && GuardHolds(Capped(c, caps), g)) <==> GuardHolds(c, g)
    {
      if g.slot < |caps| {
        assert Capped(c, caps)[g.slot] == Cap(c[g.slot], caps[g.slot]);
      }
    }
  }

  /** Acting on capped counters is capping the result of acting. */
  lemma {:induction false} CappedActions(c: Counters, caps: Counters, actions: seq<Action>)
    requires |c| == |caps|
    ensures var r := ApplyCapped(Capped(c, caps), caps, actions);
            r.Some? ==> r.value == Capped(Apply(c, actions), caps)
    decreases |actions|
  {
    if actions != [] {
      var a := actions[0];
      if a.slot < |c| {
        var d := ApplyOne(c, a);
        var n := Capped(c, caps)[a.slot];
        var n' := match a.kind
          case Inc => if n < caps[a.slot] then n + 1 else n
          case Reset => 0;
        assert Capped(c, caps)[a.slot := n'] == Capped(d, caps);
        CappedActions(d, caps, actions[1..]);
      }
    }
  }

  ghost predicate AtLeast(caps: Counters, r: Counters) {
    |r| == |caps| && forall i :: 0 <= i < |caps| ==> caps[i] <= r[i]
  }

  /** The largest threshold of a guard list on one slot, less one. */
  function Raise(caps: Counters, g: Guard): (r: Counters)
    ensures |r| == |caps|
    ensures forall i :: 0 <= i < |caps| ==> caps[i] <= r[i]
    ensures GuardsCapped(r, [g])
    ensures forall c :: AtLeast(caps, c) && GuardsCapped(c, [g]) ==> AtLeast(r, c)
  {
    assert [g][0] == g;
    if g.slot >= |caps| || g.n == 0 then caps
    else if g.n - 1 > caps[g.slot] then caps[g.slot := g.n - 1]
    else caps
  }

  method AddCounterCaps(caps: Counters, guards: seq<Guard>) returns (r: Counters)
    ensures AtLeast(caps, r) && GuardsCapped(r, guards)
    ensures forall c :: AtLeast(caps, c) && GuardsCapped(c, guards) ==> AtLeast(r, c)
  {
    r := caps;
    for i := 0 to |guards|
      invariant AtLeast(caps, r) && GuardsCapped(r, guards[..i])
      invariant forall c :: AtLeast(caps, c) && GuardsCapped(c, guards) ==> AtLeast(r, c)
    {
      assert forall c :: GuardsCapped(c, guards) ==> GuardsCapped(c, [guards[i]]);
      r := Raise(r, guards[i]);
      assert guards[..i + 1] == guards[..i] + [guards[i]];
      assert [guards[i]][0] == guards[i];
    }
    assert guards[..|guards|] == guards;
  }

  lemma RowCappedGrows(caps: Counters, r: Counters, row: SourceRow)
    requires AtLeast(caps, r) && RowCapped(caps, row)
    ensures RowCapped(r, row)
  {
    forall e | e in row.edges
      ensures GuardsCapped(r, e.guards)
    {
      assert GuardsCapped(caps, e.guards);
    }
    forall g | g in row.accept
      ensures GuardsCapped(r, g)
    {
      assert GuardsCapped(caps, g);
    }
  }

  method RowCaps(caps: Counters, row: SourceRow) returns (r: Counters)
    ensures AtLeast(caps, r) && RowCapped(r, row)
    ensures forall c :: AtLeast(caps, c) && RowCapped(c, row) ==> AtLeast(r, c)
  {
    r := caps;
    for i := 0 to |row.edges|
      invariant AtLeast(caps, r) && RowCapped(r, SourceRow(row.edges[..i], []))
      invariant forall c :: AtLeast(caps, c) && RowCapped(c, row) ==> AtLeast(r, c)
    {
      assert row.edges[i] in row.edges;
      ghost var before := r;
      r := AddCounterCaps(r, row.edges[i].guards);
      RowCappedGrows(before, r, SourceRow(row.edges[..i], []));
      assert row.edges[..i + 1] == row.edges[..i] + [row.edges[i]];
    }
    assert row.edges[..|row.edges|] == row.edges;
    for i := 0 to |row.accept|
      invariant AtLeast(caps, r) && RowCapped(r, SourceRow(row.edges, row.accept[..i]))
      invariant forall c :: AtLeast(caps, c) && RowCapped(c, row) ==> AtLeast(r, c)
    {
      assert row.accept[i] in row.accept;
      ghost var before := r;
      r := AddCounterCaps(r, row.accept[i]);
      RowCappedGrows(before, r, SourceRow(row.edges, row.accept[..i]));
      assert row.accept[..i + 1] == row.accept[..i] + [row.accept[i]];
    }
    assert row.accept[..|row.accept|] == row.accept;
  }

  ghost predicate RowsCapped(caps: Counters, rows: seq<SourceRow>) {
    forall i :: 0 <= i < |rows| ==> RowCapped(caps, rows[i])
  }

  /** The least caps that no guard of the table can see past. */
  ghost predicate LeastCaps(caps: Counters, rows: seq<SourceRow>, k: nat) {
    && |caps| == k && RowsCapped(caps, rows)
    && forall c :: |c| == k && RowsCapped(c, rows) ==> AtLeast(caps, c)
  }

  method CounterCaps(rows: seq<SourceRow>, k: nat) returns (caps: Counters)
    ensures LeastCaps(caps, rows, k)
  {
    caps := Zeros(k);
    for i := 0 to |rows|
      invariant |caps| == k && RowsCapped(caps, rows[..i])
      invariant forall c :: |c| == k && RowsCapped(c, rows) ==> AtLeast(caps, c)
    {
      ghost var before := caps;
      caps := RowCaps(caps, rows[i]);
      forall j | 0 <= j < i
        ensures RowCapped(caps, rows[j])
      {
        assert RowCapped(before, rows[..i][j]);
        RowCappedGrows(before, caps, rows[j]);
      }
    }
    assert rows[..|rows|] == rows;
  }
}
