/**
 The bars a position is held over, as a set: the bar it is entered at, the squareoff bar, and the bar after
 a given minute. The exits of the three studies are stated on these, without positions or scans.
 */
module HeldBars {
  import opened Common
  import opened Tape

  /** The bars of the tape with their minute in [lo, hi]. */
  function Held(t: seq<Bar>, lo: int, hi: int): set<Bar> {
    set b | b in t && lo <= b.mfo <= hi
  }

  /** A position entered at the open of bar e, one with a positive open at minute m, with z the last bar. */
  predicate Holds(s: set<Bar>, m: int, e: Bar, z: Bar) {
    e in s && e.mfo == m && e.o > 0.0 && z in s && forall b | b in s :: b.mfo <= z.mfo
  }

  /** x is the first bar after minute m. */
  predicate NextBar(s: set<Bar>, m: int, x: Bar) {
    x in s && m < x.mfo && forall b | b in s && m < b.mfo :: x.mfo <= b.mfo
  }

  predicate DistinctMinutes(s: set<Bar>) {
    forall a, b | a in s && b in s && a.mfo == b.mfo :: a == b
  }

  lemma {:induction false} HeldDistinct(t: seq<Bar>, lo: int, hi: int)
    requires Ascending(t)
    ensures DistinctMinutes(Held(t, lo, hi))
  {
    forall a, b | a in t && b in t && a.mfo == b.mfo ensures a == b {
      var i :| 0 <= i < |t| && t[i] == a;
      var j :| 0 <= j < |t| && t[j] == b;
      assert i == j;
    }
  }

  /** Cutting the tape to the range first changes nothing. */
  lemma {:induction false} HeldOfCut(t: seq<Bar>, lo: int, hi: int)
    ensures Held(Between(t, lo, hi), lo, hi) == Held(t, lo, hi)
  {
    forall b ensures b in Held(Between(t, lo, hi), lo, hi) <==> b in Held(t, lo, hi) {
      BetweenHas(t, lo, hi, b);
    }
  }

  /** All bars are at lo or later. */
  predicate From(bars: seq<Bar>, lo: int) {
    forall i | 0 <= i < |bars| :: lo <= bars[i].mfo
  }

  lemma {:induction false} CutFrom(t: seq<Bar>, lo: int, hi: int)
    ensures From(Between(t, lo, hi), lo)
  {
    var bars := Between(t, lo, hi);
    forall i | 0 <= i < |bars| ensures lo <= bars[i].mfo {
      BetweenHas(t, lo, hi, bars[i]);
    }
  }

  predicate Enters(bars: seq<Bar>, m: int, squareoff: int) {
    var i0 := EntryIndex(bars, m);
    i0.Some? && bars[i0.value].o > 0.0 && i0.value <= LastAtOrBefore(bars, squareoff)
  }

  /** The bars found by position are the ones the position is held over. */
  lemma {:induction false} HoldsIff(bars: seq<Bar>, lo: int, m: int, squareoff: int, e: Bar, z: Bar)
    requires Ascending(bars) && From(bars, lo)
    ensures Holds(Held(bars, lo, squareoff), m, e, z) <==>
            && Enters(bars, m, squareoff)
            && e == bars[EntryIndex(bars, m).value] && z == bars[LastAtOrBefore(bars, squareoff)]
  {
    var i0, last := EntryIndex(bars, m), LastAtOrBefore(bars, squareoff);
    Positions(bars, m, squareoff);
    LastIs(bars, squareoff);
    if Holds(Held(bars, lo, squareoff), m, e, z) {
      var i :| 0 <= i < |bars| && bars[i] == e;
      var j :| 0 <= j < |bars| && bars[j] == z;
      EntryIndexIsFirst(bars, m, i);
      assert i == i0.value && i <= j <= last;
      assert bars[last] in Held(bars, lo, squareoff);
      assert j == last;
    }
  }

  /** The first bar by position is the next bar. */
  lemma {:induction false} NextIs(bars: seq<Bar>, lo: int, squareoff: int, m: int, k: int)
    requires Ascending(bars) && From(bars, lo) && 0 < k < |bars|
    requires bars[k - 1].mfo <= m < bars[k].mfo <= squareoff
    ensures NextBar(Held(bars, lo, squareoff), m, bars[k])
  {
    forall b | b in bars && m < b.mfo ensures bars[k].mfo <= b.mfo {
      var j :| 0 <= j < |bars| && bars[j] == b;
    }
  }

  lemma {:induction false} SameNext(s: set<Bar>, m: int, x: Bar, y: Bar)
    requires DistinctMinutes(s) && NextBar(s, m, x) && NextBar(s, m, y)
    ensures x == y
  {
  }
}
