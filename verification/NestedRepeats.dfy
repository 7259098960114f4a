/** A repetition of a repetition: which counts it allows, and when one combined range
    allows the same counts. */
module NestedRepeats {
  import opened Schema
  import opened Languages
  import opened ParticleRanges

  /** k items can be cut into an outer number of groups of an inner size. */
  ghost predicate GroupsOf(inner: Occurrence, j: nat, k: nat) {
    j * inner.min <= k && if inner.unbounded then j > 0 || k == 0 else k <= j * inner.max
  }

  ghost predicate NestedCount(inner: Occurrence, outer: Occurrence, k: nat) {
    exists j: nat :: outer.Contains(j) && GroupsOf(inner, j, k)
  }

  /** One group fewer: how large the last group may be. */
  lemma LastGroup(inner: Occurrence, j: nat, k: nat) returns (last: nat)
    requires inner.Valid() && j > 0 && GroupsOf(inner, j, k)
    ensures last <= k && inner.Contains(last) && GroupsOf(inner, j - 1, k - last)
  {
    assert j * inner.min == (j - 1) * inner.min + inner.min;
    assert j * inner.max == (j - 1) * inner.max + inner.max;
    if j == 1 {
      last := k;
    } else if inner.unbounded {
      last := inner.min;
    } else if k - inner.min <= (j - 1) * inner.max {
      last := inner.min;
    } else {
      last := k - (j - 1) * inner.max;
      assert (j - 1) * inner.max >= (j - 1) * inner.min by {
        MulMonotone(inner.min, inner.max, j - 1);
      }
    }
  }

  lemma AddGroup(inner: Occurrence, j: nat, k: nat, last: nat)
    requires inner.Valid() && GroupsOf(inner, j, k) && inner.Contains(last)
    ensures GroupsOf(inner, j + 1, k + last)
  {
    assert (j + 1) * inner.min == j * inner.min + inner.min;
    assert (j + 1) * inner.max == j * inner.max + inner.max;
  }

  ghost predicate InGroups(l: Lang, inner: Occurrence, j: nat, w: Word) {
    exists k: nat :: GroupsOf(inner, j, k) && w in Power(l, k)
  }

  lemma GroupAppended(l: Lang, inner: Occurrence, j: nat, w: Word, i: nat)
    requires inner.Valid() && i <= |w| && InGroups(l, inner, j, w[..i]) && w[i..] in Rep(l, inner)
    ensures InGroups(l, inner, j + 1, w)
  {
    var k: nat :| GroupsOf(inner, j, k) && w[..i] in Power(l, k);
    var last: nat :| inner.Contains(last) && w[i..] in Power(l, last);
    AddGroup(inner, j, k, last);
    PowerPlus(l, k, last);
    assert Splits(Power(l, k), Power(l, last), w, i);
    assert w in Power(l, k + last);
  }

  lemma GroupSplitOff(l: Lang, inner: Occurrence, j: nat, w: Word) returns (i: nat)
    requires inner.Valid() && j > 0 && InGroups(l, inner, j, w)
    ensures i <= |w| && InGroups(l, inner, j - 1, w[..i]) && w[i..] in Rep(l, inner)
  {
    var k: nat :| GroupsOf(inner, j, k) && w in Power(l, k);
    var last := LastGroup(inner, j, k);
    PowerPlus(l, k - last, last);
    i :| Splits(Power(l, k - last), Power(l, last), w, i);
  }

  /** Powers of a repetition are the powers of the item by the counts allowed. */
  lemma {:induction false} PowerOfRep(l: Lang, inner: Occurrence, j: nat, w: Word)
    requires inner.Valid()
    ensures w in Power(Rep(l, inner), j) <==> InGroups(l, inner, j, w)
    decreases j
  {
    if j == 0 {
      assert GroupsOf(inner, 0, 0);
    } else {
      if w in Power(Rep(l, inner), j) {
        var i :| Splits(Power(Rep(l, inner), j - 1), Rep(l, inner), w, i);
        PowerOfRep(l, inner, j - 1, w[..i]);
        GroupAppended(l, inner, j - 1, w, i);
      }
      if InGroups(l, inner, j, w) {
        var i := GroupSplitOff(l, inner, j, w);
        PowerOfRep(l, inner, j - 1, w[..i]);
        assert Splits(Power(Rep(l, inner), j - 1), Rep(l, inner), w, i);
      }
    }
  }

  lemma NestedRep(l: Lang, inner: Occurrence, outer: Occurrence, w: Word)
    requires inner.Valid()
    ensures w in Rep(Rep(l, inner), outer) <==> exists k: nat :: NestedCount(inner, outer, k) && w in Power(l, k)
  {
    if w in Rep(Rep(l, inner), outer) {
      var j: nat :| outer.Contains(j) && w in Power(Rep(l, inner), j);
      PowerOfRep(l, inner, j, w);
      var k: nat :| GroupsOf(inner, j, k) && w in Power(l, k);
      assert NestedCount(inner, outer, k);
    }
    if k: nat :| NestedCount(inner, outer, k) && w in Power(l, k) {
      var j: nat :| outer.Contains(j) && GroupsOf(inner, j, k);
      PowerOfRep(l, inner, j, w);
      assert InGroups(l, inner, j, w);
    }
  }

  // ----- one letter tells the counts apart -----

  ghost function OneLetter(x: Input): Lang {
    iset{[x]}
  }

  lemma {:induction false} LetterPower(x: Input, k: nat, w: Word)
    ensures w in Power(OneLetter(x), k) <==> |w| == k && forall i :: 0 <= i < k ==> w[i] == x
    decreases k
  {
    var l := OneLetter(x);
    if k > 0 {
      if w in Power(l, k) {
        var i :| Splits(Power(l, k - 1), l, w, i);
        LetterPower(x, k - 1, w[..i]);
        assert w[k - 1] == w[i..][0];
        assert forall j :: 0 <= j < k - 1 ==> w[j] == w[..i][j];
      }
      if |w| == k && forall i :: 0 <= i < k ==> w[i] == x {
        LetterPower(x, k - 1, w[..k - 1]);
        assert w[k - 1..] == [x];
        assert Splits(Power(l, k - 1), l, w, k - 1);
      }
    }
  }

  lemma CountsFromLanguages(inner: Occurrence, outer: Occurrence, o: Occurrence, x: Input, k: nat)
    requires inner.Valid() && Rep(Rep(OneLetter(x), inner), outer) == Rep(OneLetter(x), o)
    ensures NestedCount(inner, outer, k) <==> o.Contains(k)
  {
    var l := OneLetter(x);
    var w := seq(k, _ => x);
    LetterPower(x, k, w);
    NestedRep(l, inner, outer, w);
    if NestedCount(inner, outer, k) {
      var n: nat :| o.Contains(n) && w in Power(l, n);
      LetterPower(x, n, w);
    }
    if o.Contains(k) {
      RepIntro(l, o, k, w);
      var n: nat :| NestedCount(inner, outer, n) && w in Power(l, n);
      LetterPower(x, n, w);
    }
  }

  /** A combined range means the same as the nested repetition, for every language,
      exactly when it allows the same counts. */
  lemma SameLanguagesIffSameCounts(inner: Occurrence, outer: Occurrence, o: Occurrence)
    requires inner.Valid()
    ensures (forall l: Lang :: Rep(Rep(l, inner), outer) == Rep(l, o)) <==>
            (forall k: nat :: NestedCount(inner, outer, k) <==> o.Contains(k))
  {
    if forall k: nat :: NestedCount(inner, outer, k) <==> o.Contains(k) {
      forall l: Lang
        ensures Rep(Rep(l, inner), outer) == Rep(l, o)
      {
        forall w: Word
          ensures w in Rep(Rep(l, inner), outer) <==> w in Rep(l, o)
        {
          NestedRep(l, inner, outer, w);
        }
      }
    }
    if forall l: Lang :: Rep(Rep(l, inner), outer) == Rep(l, o) {
      var x := Input(QName("", ""), true, false);
      forall k: nat
        ensures NestedCount(inner, outer, k) <==> o.Contains(k)
      {
        CountsFromLanguages(inner, outer, o, x, k);
      }
    }
  }

  // ----- when multiplying the ranges is exact -----

  /** The guard under which the lowering pass multiplies. */
  predicate CanFlatten(outer: Occurrence, inner: Occurrence) {
    || outer.IsExactlyOne()
    || inner.min == 0
    || inner.IsExactlyOne()
    || (inner.unbounded && (outer.min > 0 || inner.min == 1))
    || (!outer.unbounded && outer.min == outer.max)
  }

  /** Neither range is zero while the other is unbounded, and no product saturates. */
  predicate MultipliesExactly(outer: Occurrence, inner: Occurrence) {
    && !(inner.IsZero() && outer.unbounded)
    && !(outer.IsZero() && inner.unbounded)
    && inner.min * outer.min <= MAX_UINT32
    && (inner.unbounded || outer.unbounded || inner.max * outer.max <= MAX_UINT32)
  }

  lemma MulGrows(a: nat, b: nat, c: nat, d: nat)
    requires a <= b && c <= d
    ensures a * c <= b * d
  {
    MulMonotone(a, b, c);
    MulMonotone(c, d, b);
  }

  /** A group count for k when the outer range is unbounded and the inner one starts at zero. */
  lemma EnoughGroups(outer: Occurrence, inner: Occurrence, k: nat)
    requires outer.unbounded && inner.min == 0 && (inner.unbounded || inner.max > 0)
    ensures NestedCount(inner, outer, k)
  {
    var j := outer.min + k + 1;
    if !inner.unbounded {
      MulMonotone(1, inner.max, j);
    }
    assert outer.Contains(j) && GroupsOf(inner, j, k);
  }

  lemma CountsBounded(outer: Occurrence, inner: Occurrence, j: nat, k: nat)
    requires inner.Valid() && outer.Valid() && MultipliesExactly(outer, inner)
    requires outer.Contains(j) && GroupsOf(inner, j, k)
    ensures MultiplyOccurrence(inner, outer).Contains(k)
  {
    MulGrows(outer.min, j, inner.min, inner.min);
    if !outer.unbounded && !inner.unbounded {
      MulGrows(j, outer.max, inner.max, inner.max);
    }
  }

  lemma GroupsFromZero(outer: Occurrence, inner: Occurrence, k: nat)
    requires inner.Valid() && outer.Valid() && inner.min == 0 && MultipliesExactly(outer, inner)
    requires MultiplyOccurrence(inner, outer).Contains(k)
    ensures NestedCount(inner, outer, k)
  {
    if outer.unbounded {
      EnoughGroups(outer, inner, k);
    } else {
      assert outer.Contains(outer.max) && GroupsOf(inner, outer.max, k);
    }
  }

  lemma {:induction false} LeastGroups(outer: Occurrence, inner: Occurrence, k: nat)
    requires inner.Valid() && outer.Valid() && MultipliesExactly(outer, inner)
    requires MultiplyOccurrence(inner, outer).Contains(k)
    requires outer.IsExactlyOne() || (inner.unbounded && outer.min > 0) || (!outer.unbounded && outer.min == outer.max)
    ensures NestedCount(inner, outer, k)
  {
    assert outer.Contains(outer.min) && GroupsOf(inner, outer.min, k);
  }

  /** The number of groups to use for k, when the guard allows flattening. */
  lemma GroupsFor(outer: Occurrence, inner: Occurrence, k: nat)
    requires inner.Valid() && outer.Valid() && CanFlatten(outer, inner) && MultipliesExactly(outer, inner)
    requires MultiplyOccurrence(inner, outer).Contains(k)
    ensures NestedCount(inner, outer, k)
  {
    if inner.IsExactlyOne() {
      assert outer.Contains(k) && GroupsOf(inner, k, k);
    } else if inner.min == 0 {
      GroupsFromZero(outer, inner, k);
    } else if inner.unbounded && outer.min == 0 && inner.min == 1 {
      var j := if k == 0 then 0 else 1;
      assert outer.Contains(j) && GroupsOf(inner, j, k);
    } else {
      LeastGroups(outer, inner, k);
    }
  }

  /** Where the combined range is wrong. */
  lemma WrongCount(outer: Occurrence, inner: Occurrence) returns (k: nat)
    requires inner.Valid() && outer.Valid() && !MultipliesExactly(outer, inner)
    ensures NestedCount(inner, outer, k) != MultiplyOccurrence(inner, outer).Contains(k)
  {
    if (inner.IsZero() && outer.unbounded) || (outer.IsZero() && inner.unbounded) {
      k := 1;
      forall j: nat | outer.Contains(j)
        ensures !GroupsOf(inner, j, 1)
      {
      }
    } else if inner.min * outer.min > MAX_UINT32 {
      k := MAX_UINT32;
      if !inner.unbounded && !outer.unbounded {
        MulGrows(inner.min, inner.max, outer.min, outer.max);
      }
      forall j: nat | outer.Contains(j)
        ensures !GroupsOf(inner, j, k)
      {
        MulGrows(outer.min, j, inner.min, inner.min);
      }
    } else {
      k := outer.max * inner.max;
      MulGrows(outer.max, outer.max, inner.min, inner.max);
      assert outer.Contains(outer.max) && GroupsOf(inner, outer.max, k);
    }
  }

  /** Under its guard, flattening keeps every language exactly when neither range is zero
      beside an unbounded one and no product saturates. */
  lemma FlattenIff(outer: Occurrence, inner: Occurrence)
    requires inner.Valid() && outer.Valid() && CanFlatten(outer, inner)
    ensures (forall l: Lang :: Rep(Rep(l, inner), outer) == Rep(l, MultiplyOccurrence(inner, outer))) <==>
            MultipliesExactly(outer, inner)
  {
    var o := MultiplyOccurrence(inner, outer);
    SameLanguagesIffSameCounts(inner, outer, o);
    if MultipliesExactly(outer, inner) {
      forall k: nat
        ensures NestedCount(inner, outer, k) <==> o.Contains(k)
      {
        if NestedCount(inner, outer, k) {
          var j: nat :| outer.Contains(j) && GroupsOf(inner, j, k);
          CountsBounded(outer, inner, j, k);
        }
        if o.Contains(k) {
          GroupsFor(outer, inner, k);
        }
      }
    } else {
      var k := WrongCount(outer, inner);
    }
  }
}
