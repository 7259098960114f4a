/** Languages of child sequences: concatenation, powers and repetition over an
    occurrence range. */
module Languages {
  import opened Schema

  type Lang = iset<Word>

  ghost const EPSILON: Lang := iset w: Word | w == []
  ghost const EMPTY: Lang := iset w: Word | false

  ghost predicate Splits(a: Lang, b: Lang, w: Word, i: int) {
    0 <= i <= |w| && w[..i] in a && w[i..] in b
  }

  ghost predicate InCat(a: Lang, b: Lang, w: Word) {
    exists i :: Splits(a, b, w, i)
  }

  ghost function Cat(a: Lang, b: Lang): Lang {
    iset w: Word | InCat(a, b, w)
  }

  ghost function Power(l: Lang, k: nat): Lang {
    if k == 0 then EPSILON else Cat(Power(l, k - 1), l)
  }

  ghost predicate InRep(l: Lang, o: Occurrence, w: Word) {
    exists k: nat :: o.Contains(k) && w in Power(l, k)
  }

  ghost function Rep(l: Lang, o: Occurrence): Lang {
    iset w: Word | InRep(l, o, w)
  }

  ghost function NonEmpty(l: Lang): Lang {
    iset w: Word | w in l && w != []
  }

  // ----- words -----

  lemma SplitWord(w: Word, i: int)
    requires 0 <= i <= |w|
    ensures w[..i] + w[i..] == w
  {
  }

  /** The last letter of a nonempty right part is the last letter of the whole. */
  lemma AppendLast(u: Word, v: Word)
    requires v != []
    ensures u + v == (u + v[..|v| - 1]) + [v[|v| - 1]]
    ensures |v| == 1 ==> u + v == u + [v[0]]
  {
  }

  // ----- concatenation -----

  lemma CatIntro(a: Lang, b: Lang, u: Word, v: Word)
    requires u in a && v in b
    ensures u + v in Cat(a, b)
  {
    assert (u + v)[..|u|] == u && (u + v)[|u|..] == v;
    assert Splits(a, b, u + v, |u|);
  }

  lemma CatElim(a: Lang, b: Lang, w: Word) returns (u: Word, v: Word)
    requires w in Cat(a, b)
    ensures w == u + v && u in a && v in b
  {
    var i :| Splits(a, b, w, i);
    u, v := w[..i], w[i..];
  }

  lemma EpsilonCat(a: Lang)
    ensures Cat(EPSILON, a) == a
  {
    forall w: Word
      ensures w in Cat(EPSILON, a) <==> w in a
    {
      if w in a {
        assert [] + w == w;
        CatIntro(EPSILON, a, [], w);
      }
      if w in Cat(EPSILON, a) {
        var u, v := CatElim(EPSILON, a, w);
        assert w == v;
      }
    }
  }

  lemma CatEpsilon(a: Lang)
    ensures Cat(a, EPSILON) == a
  {
    forall w: Word
      ensures w in Cat(a, EPSILON) <==> w in a
    {
      if w in a {
        assert w + [] == w;
        CatIntro(a, EPSILON, w, []);
      }
      if w in Cat(a, EPSILON) {
        var u, v := CatElim(a, EPSILON, w);
        assert w == u;
      }
    }
  }

  lemma CatAssoc(a: Lang, b: Lang, c: Lang)
    ensures Cat(Cat(a, b), c) == Cat(a, Cat(b, c))
  {
    forall w: Word
      ensures w in Cat(Cat(a, b), c) <==> w in Cat(a, Cat(b, c))
    {
      if w in Cat(Cat(a, b), c) {
        var uv, z := CatElim(Cat(a, b), c, w);
        var u, v := CatElim(a, b, uv);
        CatIntro(b, c, v, z);
        CatIntro(a, Cat(b, c), u, v + z);
        assert u + (v + z) == w;
      }
      if w in Cat(a, Cat(b, c)) {
        var u, vz := CatElim(a, Cat(b, c), w);
        var v, z := CatElim(b, c, vz);
        CatIntro(a, b, u, v);
        CatIntro(Cat(a, b), c, u + v, z);
        assert (u + v) + z == w;
      }
    }
  }

  lemma CatMonotone(a: Lang, b: Lang, a': Lang, b': Lang)
    requires a <= a' && b <= b'
    ensures Cat(a, b) <= Cat(a', b')
  {
    forall w | w in Cat(a, b)
      ensures w in Cat(a', b')
    {
      var u, v := CatElim(a, b, w);
      CatIntro(a', b', u, v);
    }
  }

  lemma CatHasEmpty(a: Lang, b: Lang)
    ensures [] in Cat(a, b) <==> [] in a && [] in b
  {
    if [] in Cat(a, b) {
      var u, v := CatElim(a, b, []);
      assert u == [] && v == [];
    }
    if [] in a && [] in b {
      CatIntro(a, b, [], []);
      var e: Word := [];
      assert e + e == e;
    }
  }

  // ----- powers -----

  lemma {:induction false} PowerPlus(l: Lang, j: nat, k: nat)
    ensures Power(l, j + k) == Cat(Power(l, j), Power(l, k))
    decreases k
  {
    if k == 0 {
      CatEpsilon(Power(l, j));
    } else {
      calc {
        Power(l, j + k);
        Cat(Power(l, j + (k - 1)), l);
        { PowerPlus(l, j, k - 1); }
        Cat(Cat(Power(l, j), Power(l, k - 1)), l);
        { CatAssoc(Power(l, j), Power(l, k - 1), l); }
        Cat(Power(l, j), Power(l, k));
      }
    }
  }

  lemma {:induction false} PowerMonotone(a: Lang, b: Lang, k: nat)
    requires a <= b
    ensures Power(a, k) <= Power(b, k)
  {
    if k > 0 {
      PowerMonotone(a, b, k - 1);
      CatMonotone(Power(a, k - 1), a, Power(b, k - 1), b);
    }
  }

  lemma {:induction false} PowerHasEmpty(l: Lang, k: nat)
    ensures [] in Power(l, k) <==> k == 0 || [] in l
  {
    if k > 0 {
      PowerHasEmpty(l, k - 1);
      CatHasEmpty(Power(l, k - 1), l);
    }
  }

  lemma PowerOne(l: Lang)
    ensures Power(l, 1) == l
  {
    assert Power(l, 1) == Cat(Power(l, 0), l);
    EpsilonCat(l);
  }

  /** Powers of a language with the empty word only grow. */
  lemma {:induction false} PowerGrows(l: Lang, j: nat, k: nat)
    requires [] in l && j <= k
    ensures Power(l, j) <= Power(l, k)
    decreases k - j
  {
    if j < k {
      forall w | w in Power(l, j)
        ensures w in Power(l, j + 1)
      {
        CatIntro(Power(l, j), l, w, []);
        assert w + [] == w;
      }
      PowerGrows(l, j + 1, k);
    }
  }

  /** Dropping the empty pieces of a k-fold word leaves at most k nonempty ones. */
  lemma {:induction false} DropEmptyPieces(l: Lang, k: nat, w: Word) returns (j: nat)
    requires w in Power(l, k)
    ensures j <= k && w in Power(NonEmpty(l), j)
    ensures [] !in l ==> j == k
  {
    if k == 0 {
      j := 0;
    } else {
      var u, v := CatElim(Power(l, k - 1), l, w);
      j := DropEmptyPieces(l, k - 1, u);
      if v == [] {
        assert u == w;
      } else {
        CatIntro(Power(NonEmpty(l), j), NonEmpty(l), u, v);
        j := j + 1;
      }
    }
  }

  lemma NonEmptyPowers(l: Lang, j: nat, w: Word)
    requires w in Power(NonEmpty(l), j)
    ensures w in Power(l, j)
    ensures w == [] <==> j == 0
  {
    PowerMonotone(NonEmpty(l), l, j);
    if w == [] {
      PowerHasEmpty(NonEmpty(l), j);
    }
  }

  // ----- repetition -----

  lemma RepIntro(l: Lang, o: Occurrence, k: nat, w: Word)
    requires o.Contains(k) && w in Power(l, k)
    ensures w in Rep(l, o)
  {
  }

  lemma RepOne(l: Lang)
    ensures Rep(l, ONE) == l
  {
    PowerOne(l);
    forall w: Word
      ensures w in Rep(l, ONE) <==> w in l
    {
      if w in l {
        RepIntro(l, ONE, 1, w);
      }
      if w in Rep(l, ONE) {
        var k: nat :| ONE.Contains(k) && w in Power(l, k);
        assert k == 1;
      }
    }
  }

  lemma RepZero(l: Lang, o: Occurrence)
    requires o.IsZero() && o.min == 0
    ensures Rep(l, o) == EPSILON
  {
    forall w: Word
      ensures w in Rep(l, o) <==> w == []
    {
      if w == [] {
        RepIntro(l, o, 0, w);
      }
    }
  }

  lemma RepMonotone(a: Lang, b: Lang, o: Occurrence, p: Occurrence)
    requires a <= b
    requires forall k: nat :: o.Contains(k) ==> p.Contains(k)
    ensures Rep(a, o) <= Rep(b, p)
  {
    forall w | w in Rep(a, o)
      ensures w in Rep(b, p)
    {
      var k: nat :| o.Contains(k) && w in Power(a, k);
      PowerMonotone(a, b, k);
      RepIntro(b, p, k, w);
    }
  }

  lemma RepHasEmpty(l: Lang, o: Occurrence)
    requires o.Valid()
    ensures [] in Rep(l, o) <==> o.min == 0 || [] in l
  {
    if [] in Rep(l, o) {
      var k: nat :| o.Contains(k) && [] in Power(l, k);
      PowerHasEmpty(l, k);
    }
    if o.min == 0 || [] in l {
      PowerHasEmpty(l, o.min);
      RepIntro(l, o, o.min, []);
    }
  }

  /** How an automaton counts: only nonempty rounds are seen, and a round that may
      be empty makes the minimum free of charge. */
  ghost predicate Rounds(o: Occurrence, nullable: bool, j: nat) {
    (o.unbounded || j <= o.max) && (nullable || o.min <= j)
  }

  lemma RepByRounds(l: Lang, o: Occurrence, w: Word)
    requires o.Valid()
    ensures w in Rep(l, o) <==>
            exists j: nat :: Rounds(o, [] in l, j) && w in Power(NonEmpty(l), j)
  {
    if w in Rep(l, o) {
      var k: nat :| o.Contains(k) && w in Power(l, k);
      var j := DropEmptyPieces(l, k, w);
      assert Rounds(o, [] in l, j);
    }
    if exists j: nat :: Rounds(o, [] in l, j) && w in Power(NonEmpty(l), j) {
      var j: nat :| Rounds(o, [] in l, j) && w in Power(NonEmpty(l), j);
      NonEmptyPowers(l, j, w);
      if o.min <= j {
        RepIntro(l, o, j, w);
      } else {
        PowerGrows(l, j, o.min);
        RepIntro(l, o, o.min, w);
      }
    }
  }
}
