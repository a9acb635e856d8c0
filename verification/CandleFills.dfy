/**
 What the two exits of scripts/backtest_candles.py fill at, as statements about the bars of the tape; and
 a whole trade, from the signal to the fill.
 */
module CandleFills {
  import opened Common
  import opened Tape
  import opened HeldBars
  import opened FiveMinute
  import opened CandleSignals
  import opened CandleExits
  import opened CandleTrades

  // ---------------------------------------------------------------- the fixed exit

  predicate Reaches(b: Bar, stop: real, target: real) {
    b.l <= stop || b.h >= target
  }

  /** x is the first bar after minute m to reach the stop or the target. */
  predicate FirstToReach(s: set<Bar>, m: int, stop: real, target: real, x: Bar) {
    x in s && m < x.mfo && Reaches(x, stop, target)
    && forall b | b in s && m < b.mfo < x.mfo :: !Reaches(b, stop, target)
  }

  /** At the stop if the bar reached it, else at the target. */
  predicate LevelFill(f: Fill, x: Bar, stop: real, target: real) {
    f.exitMfo == x.mfo
    && if x.l <= stop then f.reason == Stop && f.exitPx == stop && (f.gapThrough <==> x.o < stop)
       else f.reason == Target && f.exitPx == target && !f.gapThrough
  }

  predicate SquareoffFill(f: Fill, z: Bar) {
    f.reason == Squareoff && f.exitPx == z.c && f.exitMfo == z.mfo && !f.gapThrough
  }

  /** Entered at e's open: the first bar after e to reach a level fills at it, else z's close does. */
  ghost predicate FixedFill(s: set<Bar>, e: Bar, z: Bar, stop: real, r: real, f: Fill) {
    var target := e.o + r * (e.o - stop);
    && f.entryPx == e.o && f.stopPx == Some(stop) && f.targetPx == Some(target)
    && ((exists x :: FirstToReach(s, e.mfo, stop, target, x) && LevelFill(f, x, stop, target))
        || ((forall b | b in s && e.mfo < b.mfo :: !Reaches(b, stop, target)) && SquareoffFill(f, z)))
  }

  lemma {:induction false} FixedFillUnique(s: set<Bar>, e: Bar, z: Bar, stop: real, r: real, f: Fill, g: Fill)
    requires DistinctMinutes(s) && FixedFill(s, e, z, stop, r, f) && FixedFill(s, e, z, stop, r, g)
    ensures f == g
  {
    var target := e.o + r * (e.o - stop);
    if x :| FirstToReach(s, e.mfo, stop, target, x) && LevelFill(f, x, stop, target) {
      var y :| FirstToReach(s, e.mfo, stop, target, y) && LevelFill(g, y, stop, target);
      assert x == y;
    }
  }

  lemma {:induction false} E1FromIs(bars: seq<Bar>, lo: int, squareoff: int, i0: int, stop: real, r: real)
    requires Ascending(bars) && From(bars, lo) && 0 <= i0 <= LastAtOrBefore(bars, squareoff)
    ensures var last := LastAtOrBefore(bars, squareoff);
            FixedFill(Held(bars, lo, squareoff), bars[i0], bars[last], stop, r, E1From(bars, i0, last, stop, r))
  {
    var s, last := Held(bars, lo, squareoff), LastAtOrBefore(bars, squareoff);
    var target := TargetPx(bars[i0].o, stop, r);
    var k := FirstTouch(bars, stop, target, i0 + 1, last + 1);
    LastIs(bars, squareoff);
    forall b | b in s && bars[i0].mfo < b.mfo && (k <= last ==> b.mfo < bars[k].mfo)
      ensures !Reaches(b, stop, target)
    {
      var j :| 0 <= j < |bars| && bars[j] == b;
      assert i0 < j < k && !Touches(bars[j], stop, target);
    }
    if k <= last {
      assert Touches(bars[k], stop, target);
      assert FirstToReach(s, bars[i0].mfo, stop, target, bars[k]);
      assert LevelFill(E1From(bars, i0, last, stop, r), bars[k], stop, target);
    } else {
      assert SquareoffFill(E1From(bars, i0, last, stop, r), bars[last]);
    }
  }

  /** The fixed exit fills exactly as its description says, and on exactly the positions it allows. */
  lemma {:induction false} E1Iff(
      bars: seq<Bar>, lo: int, entryMfo: int, stop: Option<real>, r: real, squareoff: int, f: Fill)
    requires Ascending(bars) && From(bars, lo)
    ensures E1(bars, entryMfo, stop, r, squareoff) == Some(f) <==>
            stop.Some? && exists e, z :: Holds(Held(bars, lo, squareoff), entryMfo, e, z) && stop.value < e.o
                                         && FixedFill(Held(bars, lo, squareoff), e, z, stop.value, r, f)
  {
    hide FixedFill, E1From, Held;
    var s := Held(bars, lo, squareoff);
    HeldDistinct(bars, lo, squareoff);
    if Enters(bars, entryMfo, squareoff) && stop.Some? {
      var i0, last := EntryIndex(bars, entryMfo).value, LastAtOrBefore(bars, squareoff);
      HoldsIff(bars, lo, entryMfo, squareoff, bars[i0], bars[last]);
      E1FromIs(bars, lo, squareoff, i0, stop.value, r);
      if stop.value < bars[i0].o && FixedFill(s, bars[i0], bars[last], stop.value, r, f) {
        FixedFillUnique(s, bars[i0], bars[last], stop.value, r, f, E1From(bars, i0, last, stop.value, r));
      }
    }
    forall e, z | Holds(s, entryMfo, e, z)
      ensures Enters(bars, entryMfo, squareoff)
      ensures e == bars[EntryIndex(bars, entryMfo).value] && z == bars[LastAtOrBefore(bars, squareoff)]
    {
      HoldsIff(bars, lo, entryMfo, squareoff, e, z);
    }
  }

  // ---------------------------------------------------------------- the trail

  predicate BreaksTrail(x: Trail, signalBk: int, lastMinute: int) {
    signalBk < x.bk && x.lastMfo < lastMinute && x.c < x.priorLow
  }

  /** j is the first trail bar after the signal's, over before the given minute, to close below the low before it. */
  predicate FirstToBreak(trail: seq<Trail>, signalBk: int, lastMinute: int, j: int) {
    0 <= j < |trail| && BreaksTrail(trail[j], signalBk, lastMinute)
    && forall i | 0 <= i < j :: !BreaksTrail(trail[i], signalBk, lastMinute)
  }

  /**
   Entered at e's open: after the first trail bar to break, at the open of the first bar of the position
   after it; with none, or no bar left, at z's close.
   */
  ghost predicate TrailFill(s: set<Bar>, trail: seq<Trail>, signalBk: int, e: Bar, z: Bar, f: Fill) {
    && f.entryPx == e.o && f.stopPx == None && f.targetPx == None && !f.gapThrough
    && ((exists j, x :: FirstToBreak(trail, signalBk, z.mfo, j) && NextBar(s, Max(e.mfo, trail[j].lastMfo), x)
                        && f.reason == TrailNextOpen && f.exitPx == x.o && f.exitMfo == x.mfo)
        || (((forall j | 0 <= j < |trail| :: !BreaksTrail(trail[j], signalBk, z.mfo)) || e == z)
            && SquareoffFill(f, z)))
  }

  lemma {:induction false} TrailFillUnique(
      s: set<Bar>, trail: seq<Trail>, signalBk: int, m: int, e: Bar, z: Bar, f: Fill, g: Fill)
    requires DistinctMinutes(s) && Holds(s, m, e, z)
    requires TrailFill(s, trail, signalBk, e, z, f) && TrailFill(s, trail, signalBk, e, z, g)
    ensures f == g
  {
    hide BreaksTrail, DistinctMinutes;
    if j, x :| FirstToBreak(trail, signalBk, z.mfo, j) && NextBar(s, Max(e.mfo, trail[j].lastMfo), x)
               && f.reason == TrailNextOpen && f.exitPx == x.o && f.exitMfo == x.mfo {
      var i, y :| FirstToBreak(trail, signalBk, z.mfo, i) && NextBar(s, Max(e.mfo, trail[i].lastMfo), y)
                  && g.reason == TrailNextOpen && g.exitPx == y.o && g.exitMfo == y.mfo;
      assert i == j;
      SameNext(s, Max(e.mfo, trail[j].lastMfo), x, y);
    }
  }

  lemma {:induction false} FirstBreakIs(trail: seq<Trail>, signalBk: int, lastMinute: int)
    ensures var j := FirstBreak(trail, signalBk, lastMinute, 0);
            if j < |trail| then FirstToBreak(trail, signalBk, lastMinute, j)
            else forall i | 0 <= i < |trail| :: !BreaksTrail(trail[i], signalBk, lastMinute)
  {
    assert forall x: Trail :: BreaksTrail(x, signalBk, lastMinute) <==> Breaks(x, signalBk, lastMinute);
  }

  lemma {:induction false} E2FromIs(
      bars: seq<Bar>, trail: seq<Trail>, lo: int, squareoff: int, i0: int, signalBk: int)
    requires Ascending(bars) && From(bars, lo) && 0 <= i0 <= LastAtOrBefore(bars, squareoff)
    ensures var last := LastAtOrBefore(bars, squareoff);
            TrailFill(Held(bars, lo, squareoff), trail, signalBk, bars[i0], bars[last],
                      E2From(bars, trail, i0, last, signalBk))
  {
    hide Held, FirstToBreak, BreaksTrail, NextBar;
    var last := LastAtOrBefore(bars, squareoff);
    var j := FirstBreak(trail, signalBk, bars[last].mfo, 0);
    LastIs(bars, squareoff);
    FirstBreakIs(trail, signalBk, bars[last].mfo);
    if j < |trail| && i0 < last {
      var k := FirstAfter(bars, trail[j].lastMfo, i0 + 1, last + 1);
      assert k <= last;
      NextIs(bars, lo, squareoff, Max(bars[i0].mfo, trail[j].lastMfo), k);
    } else {
      assert SquareoffFill(E2From(bars, trail, i0, last, signalBk), bars[last]);
    }
  }

  lemma {:induction false} E2Iff(
      bars: seq<Bar>, trail: seq<Trail>, lo: int, entryMfo: int, signalBk: int, squareoff: int, f: Fill)
    requires Ascending(bars) && From(bars, lo)
    ensures E2(bars, trail, entryMfo, signalBk, squareoff) == Some(f) <==>
            exists e, z :: Holds(Held(bars, lo, squareoff), entryMfo, e, z)
                           && TrailFill(Held(bars, lo, squareoff), trail, signalBk, e, z, f)
  {
    hide TrailFill, E2From, Held;
    var s := Held(bars, lo, squareoff);
    HeldDistinct(bars, lo, squareoff);
    if Enters(bars, entryMfo, squareoff) {
      var i0, last := EntryIndex(bars, entryMfo).value, LastAtOrBefore(bars, squareoff);
      HoldsIff(bars, lo, entryMfo, squareoff, bars[i0], bars[last]);
      E2FromIs(bars, trail, lo, squareoff, i0, signalBk);
      if TrailFill(s, trail, signalBk, bars[i0], bars[last], f) {
        TrailFillUnique(s, trail, signalBk, entryMfo, bars[i0], bars[last], f, E2From(bars, trail, i0, last, signalBk));
      }
    }
    forall e, z | Holds(s, entryMfo, e, z)
      ensures Enters(bars, entryMfo, squareoff)
      ensures e == bars[EntryIndex(bars, entryMfo).value] && z == bars[LastAtOrBefore(bars, squareoff)]
    {
      HoldsIff(bars, lo, entryMfo, squareoff, e, z);
    }
  }

  // ---------------------------------------------------------------- trades

  /** The post-signal relation holds the tape's bars from the window's start to squareoff. */
  lemma {:induction false} PostSignalIs(t: seq<Bar>, p: Params, squareoff: int)
    requires Ascending(t)
    ensures Ascending(PostSignal(t, p, squareoff)) && From(PostSignal(t, p, squareoff), p.lo)
    ensures Held(PostSignal(t, p, squareoff), p.lo, squareoff) == Held(t, p.lo, squareoff)
  {
    BetweenAscends(t, p.lo, squareoff);
    CutFrom(t, p.lo, squareoff);
    HeldOfCut(t, p.lo, squareoff);
  }

  /** The session's trail: each five-minute bar but the first, with the low of the one before it. */
  lemma {:induction false} DayTrailIs(t: seq<Bar>, p: Params)
    requires p.bucket > 0
    ensures var g, trail := FiveBars(t, p.bucket, p.nMin, 374), DayTrail(t, p);
            && |trail| == Max(|g| - 1, 0)
            && forall j | 0 <= j < |trail| :: trail[j].bk == g[j + 1].bk && trail[j].lastMfo == g[j + 1].lastMfo
                                              && trail[j].c == g[j + 1].c && trail[j].priorLow == g[j].l
  {
    hide FiveBars;
  }

  /** The bars a trade of signal bar b is held over: e opens one minute after b, z is the squareoff bar. */
  predicate Carries(t: seq<Bar>, p: Params, squareoff: int, b: Five, e: Bar, z: Bar) {
    Holds(Held(t, p.lo, squareoff), b.lastMfo + 1, e, z)
  }

  /**
   A fixed-exit trade: on a signal, entered at the open of the tape's bar one minute after the signal bar,
   its stop at that bar's low (R5: its VWAP) below the entry, filled at the levels or at the squareoff.
   */
  lemma {:induction false} TradeE1Iff(t: seq<Bar>, rule: Rule, p: Params, r: real, squareoff: int, f: Fill)
    requires p.bucket > 0 && Ascending(t)
    ensures TradeE1(t, rule, p, r, squareoff) == Some(f) <==>
            exists s, e, z, stop ::
              && SignalOf(t, rule, p, RelationHi(p)) == Some(s) && Carries(t, p, squareoff, s.bar, e, z)
              && (if rule == R5 then s.bar.vwap == Some(stop) else s.bar.l == stop) && stop < e.o
              && FixedFill(Held(t, p.lo, squareoff), e, z, stop, r, f)
  {
    hide SignalOf, PostSignal, E1, Held, Holds, FixedFill, RelationHi;
    PostSignalIs(t, p, squareoff);
    var sig := SignalOf(t, rule, p, RelationHi(p));
    if sig.Some? {
      var s := sig.value;
      E1Iff(PostSignal(t, p, squareoff), p.lo, s.bar.lastMfo + 1, StopOf(s, rule), r, squareoff, f);
    }
  }

  /** A trail trade, likewise, filled after the session's first trail bar to break or at the squareoff. */
  lemma {:induction false} TradeE2Iff(t: seq<Bar>, rule: Rule, p: Params, squareoff: int, f: Fill)
    requires p.bucket > 0 && Ascending(t)
    ensures TradeE2(t, rule, p, squareoff) == Some(f) <==>
            exists s, e, z ::
              && SignalOf(t, rule, p, RelationHi(p)) == Some(s) && Carries(t, p, squareoff, s.bar, e, z)
              && TrailFill(Held(t, p.lo, squareoff), DayTrail(t, p), s.bar.bk, e, z, f)
  {
    hide SignalOf, PostSignal, DayTrail, E2, Held, Holds, TrailFill, RelationHi;
    PostSignalIs(t, p, squareoff);
    var sig := SignalOf(t, rule, p, RelationHi(p));
    if sig.Some? {
      var s := sig.value;
      E2Iff(PostSignal(t, p, squareoff), DayTrail(t, p), p.lo, s.bar.lastMfo + 1, s.bar.bk, squareoff, f);
    }
  }
}
