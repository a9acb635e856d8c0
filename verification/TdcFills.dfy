/** What a long of scripts/backtest_tdc.py fills at, as a statement about the bars of the session. */
module TdcFills {
  import opened Common
  import opened Tape
  import opened HeldBars
  import opened TdcExits

  /** Bar b, not the squareoff bar, closed more than the stop percentage below the decision VWAP. */
  predicate GivesUp(b: Bar, z: Bar, vwapT: real, stopPct: Option<real>) {
    b != z && stopPct.Some? && b.c < vwapT * (1.0 - stopPct.value / 100.0)
  }

  predicate FirstToGiveUp(s: set<Bar>, e: Bar, z: Bar, vwapT: real, stopPct: Option<real>, x: Bar) {
    x in s && e.mfo <= x.mfo && GivesUp(x, z, vwapT, stopPct)
    && forall b | b in s && e.mfo <= b.mfo < x.mfo :: !GivesUp(b, z, vwapT, stopPct)
  }

  /** Bought at e's open, and sold at the open after the first bar to give up, or at z's close. */
  ghost predicate LongFill(s: set<Bar>, e: Bar, z: Bar, vwapT: real, stopPct: Option<real>, f: Exit) {
    && f.entryPx == e.o
    && ((exists x, y :: FirstToGiveUp(s, e, z, vwapT, stopPct, x) && NextBar(s, x.mfo, y)
                        && f.reason == VwapLossNextOpen && f.exitPx == y.o && f.exitMfo == y.mfo)
        || ((forall b | b in s && e.mfo <= b.mfo :: !GivesUp(b, z, vwapT, stopPct))
            && f.reason == Squareoff && f.exitPx == z.c && f.exitMfo == z.mfo))
  }

  lemma {:induction false} SameGiveUp(
      s: set<Bar>, e: Bar, z: Bar, vwapT: real, stopPct: Option<real>, x: Bar, y: Bar)
    requires DistinctMinutes(s)
    requires FirstToGiveUp(s, e, z, vwapT, stopPct, x) && FirstToGiveUp(s, e, z, vwapT, stopPct, y)
    ensures x == y
  {
  }

  lemma {:induction false} LongFillUnique(
      s: set<Bar>, e: Bar, z: Bar, vwapT: real, stopPct: Option<real>, f: Exit, g: Exit)
    requires DistinctMinutes(s) && LongFill(s, e, z, vwapT, stopPct, f) && LongFill(s, e, z, vwapT, stopPct, g)
    ensures f == g
  {
    hide GivesUp, DistinctMinutes;
    if x, y :| FirstToGiveUp(s, e, z, vwapT, stopPct, x) && NextBar(s, x.mfo, y)
               && f.reason == VwapLossNextOpen && f.exitPx == y.o && f.exitMfo == y.mfo {
      var w, u :| FirstToGiveUp(s, e, z, vwapT, stopPct, w) && NextBar(s, w.mfo, u)
                  && g.reason == VwapLossNextOpen && g.exitPx == u.o && g.exitMfo == u.mfo;
      SameGiveUp(s, e, z, vwapT, stopPct, x, w);
      SameNext(s, x.mfo, y, u);
    }
  }

  lemma {:induction false} LosesIff(bars: seq<Bar>, last: int, k: int, vwapT: real, stopPct: Option<real>)
    requires Ascending(bars) && 0 <= k < last < |bars|
    ensures Loses(bars[k], Threshold(vwapT, stopPct)) <==> GivesUp(bars[k], bars[last], vwapT, stopPct)
  {
    assert bars[k].mfo < bars[last].mfo;
  }

  /** The scan stops at the first bar to give up. */
  lemma {:induction false} FirstLossIs(
      bars: seq<Bar>, lo: int, squareoff: int, i0: int, vwapT: real, stopPct: Option<real>)
    requires Ascending(bars) && From(bars, lo) && 0 <= i0 <= LastAtOrBefore(bars, squareoff)
    ensures var s, last := Held(bars, lo, squareoff), LastAtOrBefore(bars, squareoff);
            var k := FirstLoss(bars, Threshold(vwapT, stopPct), i0, last);
            if k < last then FirstToGiveUp(s, bars[i0], bars[last], vwapT, stopPct, bars[k])
            else forall b | b in s && bars[i0].mfo <= b.mfo :: !GivesUp(b, bars[last], vwapT, stopPct)
  {
    hide Loses, Threshold;
    var s, last := Held(bars, lo, squareoff), LastAtOrBefore(bars, squareoff);
    var k := FirstLoss(bars, Threshold(vwapT, stopPct), i0, last);
    LastIs(bars, squareoff);
    forall b | b in s && bars[i0].mfo <= b.mfo && (k < last ==> b.mfo < bars[k].mfo)
      ensures !GivesUp(b, bars[last], vwapT, stopPct)
    {
      var j :| 0 <= j < |bars| && bars[j] == b;
      assert i0 <= j <= last;
      if j < last {
        assert j < k;
        LosesIff(bars, last, j, vwapT, stopPct);
      }
    }
    if k < last {
      LosesIff(bars, last, k, vwapT, stopPct);
    }
  }

  lemma {:induction false} LongFromIs(
      bars: seq<Bar>, lo: int, squareoff: int, i0: int, vwapT: real, stopPct: Option<real>)
    requires Ascending(bars) && From(bars, lo) && 0 <= i0 <= LastAtOrBefore(bars, squareoff)
    ensures var last := LastAtOrBefore(bars, squareoff);
            LongFill(Held(bars, lo, squareoff), bars[i0], bars[last], vwapT, stopPct,
                     LongFrom(bars, i0, last, Threshold(vwapT, stopPct)))
  {
    hide Held, FirstToGiveUp, GivesUp, NextBar, Threshold;
    var last := LastAtOrBefore(bars, squareoff);
    var k := FirstLoss(bars, Threshold(vwapT, stopPct), i0, last);
    LastIs(bars, squareoff);
    FirstLossIs(bars, lo, squareoff, i0, vwapT, stopPct);
    if k < last {
      NextIs(bars, lo, squareoff, bars[k].mfo, k + 1);
    }
  }

  /** The long fills exactly as described, on exactly the positions that can be held. */
  lemma {:induction false} LongIff(
      bars: seq<Bar>, lo: int, vwapT: real, stopPct: Option<real>, entryMfo: int, squareoff: int, f: Exit)
    requires Ascending(bars) && From(bars, lo)
    ensures Long(bars, vwapT, stopPct, entryMfo, squareoff) == Some(f) <==>
            exists e, z :: Holds(Held(bars, lo, squareoff), entryMfo, e, z)
                           && LongFill(Held(bars, lo, squareoff), e, z, vwapT, stopPct, f)
  {
    hide LongFill, LongFrom, Held, Threshold;
    var s := Held(bars, lo, squareoff);
    HeldDistinct(bars, lo, squareoff);
    if Enters(bars, entryMfo, squareoff) {
      var i0, last := EntryIndex(bars, entryMfo).value, LastAtOrBefore(bars, squareoff);
      HoldsIff(bars, lo, entryMfo, squareoff, bars[i0], bars[last]);
      LongFromIs(bars, lo, squareoff, i0, vwapT, stopPct);
      if LongFill(s, bars[i0], bars[last], vwapT, stopPct, f) {
        LongFillUnique(s, bars[i0], bars[last], vwapT, stopPct, f,
                       LongFrom(bars, i0, last, Threshold(vwapT, stopPct)));
      }
    }
    forall e, z | Holds(s, entryMfo, e, z)
      ensures Enters(bars, entryMfo, squareoff)
      ensures e == bars[EntryIndex(bars, entryMfo).value] && z == bars[LastAtOrBefore(bars, squareoff)]
    {
      HoldsIff(bars, lo, entryMfo, squareoff, e, z);
    }
  }
}
