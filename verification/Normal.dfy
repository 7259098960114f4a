/** Sorting with duplicates removed, used for every set that the compiler keeps as
    a slice. Elements are ordered by an integer key sequence, compared
    lexicographically. */
module Normal {

  predicate LexLess(a: seq<int>, b: seq<int>) {
    if b == [] then false
    else if a == [] then true
    else a[0] < b[0] || (a[0] == b[0] && LexLess(a[1..], b[1..]))
  }

  function Insert<T(==,!new)>(key: T -> seq<int>, x: T, xs: seq<T>): (r: seq<T>)
    ensures forall y :: y in r <==> y == x || y in xs
  {
    if xs == [] then [x]
    else if x == xs[0] then xs
    else if LexLess(key(x), key(xs[0])) then [x] + xs
    else [xs[0]] + Insert(key, x, xs[1..])
  }

  function Normalize<T(==,!new)>(key: T -> seq<int>, xs: seq<T>): (r: seq<T>)
    ensures forall y :: y in r <==> y in xs
  {
    if xs == [] then [] else Insert(key, xs[0], Normalize(key, xs[1..]))
  }

  // ----- the normal form is canonical -----

  ghost predicate Injective<T(!new)>(key: T -> seq<int>) {
    forall x, y :: key(x) == key(y) ==> x == y
  }

  ghost predicate Sorted<T>(key: T -> seq<int>, xs: seq<T>) {
    forall i, j :: 0 <= i < j < |xs| ==> LexLess(key(xs[i]), key(xs[j]))
  }

  lemma {:induction false} LexTotal(a: seq<int>, b: seq<int>)
    ensures a == b || LexLess(a, b) || LexLess(b, a)
    ensures !LexLess(a, a)
    ensures LexLess(a, b) ==> !LexLess(b, a)
  {
    if a != [] && b != [] {
      LexTotal(a[1..], b[1..]);
      assert a[0] == b[0] && a[1..] == b[1..] ==> a == b;
    }
    if a != [] {
      LexTotal(a[1..], a[1..]);
    }
  }

  lemma {:induction false} LexTransitive(a: seq<int>, b: seq<int>, c: seq<int>)
    requires LexLess(a, b) && LexLess(b, c)
    ensures LexLess(a, c)
  {
    if a != [] && a[0] == b[0] == c[0] {
      LexTransitive(a[1..], b[1..], c[1..]);
    }
  }

  lemma {:induction false} InsertSorted<T(!new)>(key: T -> seq<int>, x: T, xs: seq<T>)
    requires Injective(key) && Sorted(key, xs)
    ensures Sorted(key, Insert(key, x, xs))
  {
    if xs != [] && x != xs[0] {
      LexTotal(key(x), key(xs[0]));
      if LexLess(key(x), key(xs[0])) {
        forall j | 0 < j < |xs|
          ensures LexLess(key(x), key(xs[j]))
        {
          LexTransitive(key(x), key(xs[0]), key(xs[j]));
        }
      } else {
        InsertSorted(key, x, xs[1..]);
        var rest := Insert(key, x, xs[1..]);
        forall j | 0 <= j < |rest|
          ensures LexLess(key(xs[0]), key(rest[j]))
        {
          assert rest[j] in rest;
        }
      }
    }
  }

  lemma {:induction false} NormalizeSorted<T(!new)>(key: T -> seq<int>, xs: seq<T>)
    requires Injective(key)
    ensures Sorted(key, Normalize(key, xs))
  {
    if xs != [] {
      NormalizeSorted(key, xs[1..]);
      InsertSorted(key, xs[0], Normalize(key, xs[1..]));
    }
  }

  lemma HeadLeast<T>(key: T -> seq<int>, xs: seq<T>, y: T)
    requires Sorted(key, xs) && y in xs
    ensures xs[0] == y || LexLess(key(xs[0]), key(y))
  {
  }

  lemma Inhabited<T>(a: seq<T>, b: seq<T>)
    requires forall y :: y in a ==> y in b
    ensures a != [] ==> b != []
  {
    if a != [] {
      assert a[0] in a;
    }
  }

  lemma {:induction false} SortedUnique<T(!new)>(key: T -> seq<int>, a: seq<T>, b: seq<T>)
    requires Sorted(key, a) && Sorted(key, b)
    requires forall y :: y in a <==> y in b
    ensures a == b
  {
    Inhabited(a, b);
    Inhabited(b, a);
    if a != [] && b != [] {
      HeadLeast(key, a, b[0]);
      HeadLeast(key, b, a[0]);
      LexTotal(key(a[0]), key(b[0]));
      Distinct(key, a);
      Distinct(key, b);
      forall y
        ensures y in a[1..] <==> y in b[1..]
      {
        assert y in a <==> y == a[0] || y in a[1..];
        assert y in b <==> y == b[0] || y in b[1..];
      }
      SortedUnique(key, a[1..], b[1..]);
    }
  }

  lemma Distinct<T>(key: T -> seq<int>, xs: seq<T>)
    requires Sorted(key, xs)
    ensures forall i, j :: 0 <= i < j < |xs| ==> xs[i] != xs[j]
    ensures xs != [] ==> xs[0] !in xs[1..]
  {
    forall i, j | 0 <= i < j < |xs|
      ensures xs[i] != xs[j]
    {
      LexTotal(key(xs[i]), key(xs[j]));
    }
  }

  /** Two slices have the same normal form exactly when they hold the same elements:
      a normalized slice can serve as the key of a set. */
  lemma NormalizeCanonical<T(!new)>(key: T -> seq<int>, a: seq<T>, b: seq<T>)
    requires Injective(key)
    ensures Normalize(key, a) == Normalize(key, b) <==> forall y :: y in a <==> y in b
  {
    NormalizeSorted(key, a);
    NormalizeSorted(key, b);
    if forall y :: y in a <==> y in b {
      SortedUnique(key, Normalize(key, a), Normalize(key, b));
    }
    if Normalize(key, a) == Normalize(key, b) {
      forall y
        ensures y in a <==> y in b
      {
        assert y in Normalize(key, a) <==> y in a;
      }
    }
  }
}
