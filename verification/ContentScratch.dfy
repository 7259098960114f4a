/** The words that hold the ticks of an xs:all group: a window into an array shared
    by nested elements, one bit per term. */
module ContentScratches {
  import opened Schema
  import opened ContentLanguage
  import opened AllGroups
  import opened ContentMachines

  // ----- single bits -----

  function ShiftOf(k: nat): (r: bv7)
    requires k < 64
    ensures r as int == k && r < 64
  {
    k as bv7
  }

  function WithBit(x: bv64, s: bv7): bv64
    requires s < 64
  {
    x | ((1 as bv64) << s)
  }

  predicate HasBit(x: bv64, s: bv7)
    requires s < 64
  {
    x & ((1 as bv64) << s) != 0
  }

  lemma SetShifted(x: bv64, a: bv7, b: bv7)
    requires a < 64 && b < 64
    ensures (x | ((1 as bv64) << a)) & ((1 as bv64) << b) != 0 <==> a == b || x & ((1 as bv64) << b) != 0
  {
  }

  /** Setting a bit sets that bit only. */
  lemma SetBit(x: bv64, a: bv7, b: bv7)
    requires a < 64 && b < 64
    ensures HasBit(WithBit(x, a), b) <==> a == b || HasBit(x, b)
  {
    SetShifted(x, a, b);
  }

  datatype BitPlace = BitPlace(word: nat, shift: bv7)

  class ContentScratch {
    const bits: array<bv64>
    const base: int
    const length: int

    constructor (bits: array<bv64>, base: int, length: int)
      ensures this.bits == bits && this.base == base && this.length == length
    {
      this.bits, this.base, this.length := bits, base, length;
    }

    /** The place of bit i, when the window reaches that far. */
    function AllBit(i: int): (r: Option<BitPlace>)
      ensures r.Some? <==> 0 <= i < 64 * length && 0 <= base + i / 64 < bits.Length
      ensures r.Some? ==> r.value.word == base + i / 64 && r.value.shift < 64 && r.value.shift as int == i % 64
    {
      if i < 0 || i / 64 >= length then None
      else
        var word := base + i / 64;
        if word < 0 || word >= bits.Length then None
        else Some(BitPlace(word, ShiftOf(i % 64)))
    }

    predicate Seen(i: int)
      reads this, bits
    {
      var place := AllBit(i);
      place.Some? && HasBit(bits[place.value.word], place.value.shift)
    }

    /** The window has a bit for each of n terms. */
    predicate Fits(n: nat)
    {
      n > 0 ==> AllBit(0).Some? && AllBit(n - 1).Some?
    }

    ghost function SeenSet(n: nat): set<nat>
      reads this, bits
    {
      set i: nat | i < n && Seen(i)
    }

    method AllSeen(i: int) returns (seen: bool, ok: bool)
      ensures ok <==> AllBit(i).Some?
      ensures seen <==> Seen(i)
    {
      var place := AllBit(i);
      if place.None? {
        return false, false;
      }
      return HasBit(bits[place.value.word], place.value.shift), true;
    }

    /** Ticks one term: no other tick changes, and no word outside the window. */
    method SetAllSeen(i: int) returns (ok: bool)
      modifies bits
      ensures ok <==> AllBit(i).Some?
      ensures forall j :: Seen(j) <==> old(Seen(j)) || (ok && j == i)
      ensures forall k :: 0 <= k < bits.Length && !(base <= k < base + length) ==> bits[k] == old(bits[k])
      ensures !ok ==> bits[..] == old(bits[..])
    {
      var place := AllBit(i);
      if place.None? {
        return false;
      }
      ghost var before := bits[place.value.word];
      bits[place.value.word] := WithBit(bits[place.value.word], place.value.shift);
      forall j
        ensures Seen(j) <==> old(Seen(j)) || j == i
      {
        var other := AllBit(j);
        if other.Some? && other.value.word == place.value.word {
          SetBit(before, place.value.shift, other.value.shift);
          assert place.value.shift == other.value.shift <==> i == j;
        }
      }
      return true;
    }

    /** Ticks the first free term that matches the child. */
    method AdvanceAll(t: Tables, terms: seq<AllTerm>, x: Input) returns (r: Step)
      modifies bits
      ensures Fits(|terms|) ==>
                match FirstFree(t, terms, old(SeenSet(|terms|)), x, 0)
                case AllInvalid => r.StepInvalid?
                case AllNoMatch => r.StepNoMatch?
                case AllMatched(i, m) => r == StepMatched(m) && SeenSet(|terms|) == old(SeenSet(|terms|)) + {i}
      ensures !r.StepMatched? ==> bits[..] == old(bits[..])
      ensures forall k :: 0 <= k < bits.Length && !(base <= k < base + length) ==> bits[k] == old(bits[k])
    {
      ghost var was := SeenSet(|terms|);
      for i := 0 to |terms|
        invariant bits[..] == old(bits[..])
        invariant Fits(|terms|) ==> FirstFree(t, terms, was, x, 0) == FirstFree(t, terms, was, x, i)
      {
        var seen, ok := AllSeen(i);
        if !ok {
          return StepInvalid;
        }
        assert seen <==> i in was;
        if !seen {
          match MatchDirect(t, terms[i].term, x) {
            case Invalid =>
              return StepInvalid;
            case Unmatched =>
            case Matched(m) =>
              ok := SetAllSeen(i);
              if !ok {
                return StepInvalid;
              }
              assert SeenSet(|terms|) == was + {i};
              return StepMatched(m);
          }
        }
      }
      return StepNoMatch;
    }

    /** Whether the group may end with the terms ticked so far. */
    method CompleteAll(terms: seq<AllTerm>, empty: bool) returns (done: bool, ok: bool)
      ensures Fits(|terms|) ==> ok
      ensures ok ==> (done <==> AllComplete(terms, empty, SeenSet(|terms|)))
    {
      var none, missing := true, false;
      for i := 0 to |terms|
        invariant none <==> SeenSet(i) == {}
        invariant missing <==> exists j :: 0 <= j < i && terms[j].required && !Seen(j)
      {
        var seen;
        seen, ok := AllSeen(i);
        if !ok {
          return false, false;
        }
        assert SeenSet(i + 1) == if seen then SeenSet(i) + {i} else SeenSet(i);
        if seen {
          none := false;
        } else if terms[i].required {
          missing := true;
        }
      }
      if none && empty {
        return true, true;
      }
      if none || missing {
        return false, true;
      }
      return true, true;
    }
  }
}
