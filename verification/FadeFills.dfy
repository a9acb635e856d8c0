/**
 What a short of scripts/backtest_fade.py fills at, as a statement about the bars of the session; and a
 whole fade trade, from the session's highs to the fill.
 */
module FadeFills {
  import opened Common
  import opened Tape
  import opened HeldBars
  import opened FadeExits
  import opened FadeTrades

  predicate TouchesStop(b: Bar, v: Levels) {
    v.trigger == OnHigh && v.stopLevel.Some? && v.stopLevel.value < b.h
  }

  predicate ClosesAbove(b: Bar, level: Option<real>) {
    level.Some? && level.value < b.c
  }

  /** The short ends on bar b: its stop inside any bar, a close above a level on any bar but the last. */
  predicate Finishes(b: Bar, z: Bar, v: Levels) {
    TouchesStop(b, v)
    || (b != z && (ClosesAbove(b, v.exitLevel) || (v.trigger == OnClose && ClosesAbove(b, v.stopLevel))))
  }

  predicate FirstToFinish(s: set<Bar>, e: Bar, z: Bar, v: Levels, x: Bar) {
    x in s && e.mfo <= x.mfo && Finishes(x, z, v)
    && forall b | b in s && e.mfo <= b.mfo < x.mfo :: !Finishes(b, z, v)
  }

  /** Bought back inside bar x, at the stop or at an open already above it. */
  predicate StopFill(f: Exit, x: Bar, v: Levels) {
    TouchesStop(x, v) && f.reason == StopIntrabar && f.exitMfo == x.mfo
    && f.exitPx == if x.o > v.stopLevel.value then x.o else v.stopLevel.value
  }

  /** Bought back at the open of y, the bar after x. */
  predicate NextOpenFill(f: Exit, s: set<Bar>, x: Bar, y: Bar, v: Levels) {
    !TouchesStop(x, v) && NextBar(s, x.mfo, y) && f.exitPx == y.o && f.exitMfo == y.mfo
    && f.reason == if ClosesAbove(x, v.exitLevel) then FadeFailedNextOpen else StopNextOpen
  }

  /** Sold at e's open, and bought back on or after the first bar to finish, or at z's close. */
  ghost predicate ShortFill(s: set<Bar>, e: Bar, z: Bar, v: Levels, f: Exit) {
    && f.entryPx == e.o
    && ((exists x :: FirstToFinish(s, e, z, v, x) && StopFill(f, x, v))
        || (exists x, y :: FirstToFinish(s, e, z, v, x) && NextOpenFill(f, s, x, y, v))
        || ((forall b | b in s && e.mfo <= b.mfo :: !Finishes(b, z, v))
            && f.reason == Squareoff && f.exitPx == z.c && f.exitMfo == z.mfo))
  }

  lemma {:induction false} SameFinish(s: set<Bar>, e: Bar, z: Bar, v: Levels, x: Bar, y: Bar)
    requires DistinctMinutes(s) && FirstToFinish(s, e, z, v, x) && FirstToFinish(s, e, z, v, y)
    ensures x == y
  {
  }

  /** What the description leaves open is nothing. */
  lemma {:induction false} ShortFillUnique(s: set<Bar>, e: Bar, z: Bar, v: Levels, f: Exit, g: Exit)
    requires DistinctMinutes(s) && ShortFill(s, e, z, v, f) && ShortFill(s, e, z, v, g)
    ensures f == g
  {
    hide DistinctMinutes, Finishes, TouchesStop;
    if x :| FirstToFinish(s, e, z, v, x) {
      forall y | FirstToFinish(s, e, z, v, y) ensures x == y {
        SameFinish(s, e, z, v, x, y);
      }
      if y :| NextOpenFill(f, s, x, y, v) {
        var w :| NextOpenFill(g, s, x, w, v);
        SameNext(s, x.mfo, y, w);
      }
    }
  }

  /** Before the squareoff bar, an end by position is a finish. */
  lemma {:induction false} EndsIff(bars: seq<Bar>, last: int, k: int, v: Levels)
    requires Ascending(bars) && 0 <= k <= last < |bars|
    ensures Ends(bars[k], v, k == last) <==> Finishes(bars[k], bars[last], v)
    ensures StopHit(bars[k], v) <==> TouchesStop(bars[k], v)
    ensures FadeFails(bars[k], v) <==> ClosesAbove(bars[k], v.exitLevel)
  {
    assert k < last ==> bars[k].mfo < bars[last].mfo;
  }

  /** The scan stops at the first bar to finish. */
  lemma {:induction false} FirstEndIs(bars: seq<Bar>, lo: int, squareoff: int, i0: int, v: Levels)
    requires Ascending(bars) && From(bars, lo) && 0 <= i0 <= LastAtOrBefore(bars, squareoff)
    ensures var s, last := Held(bars, lo, squareoff), LastAtOrBefore(bars, squareoff);
            var k := FirstEnd(bars, v, i0, last);
            if k <= last then FirstToFinish(s, bars[i0], bars[last], v, bars[k])
            else forall b | b in s && bars[i0].mfo <= b.mfo :: !Finishes(b, bars[last], v)
  {
    hide Ends, Finishes;
    var s, last := Held(bars, lo, squareoff), LastAtOrBefore(bars, squareoff);
    var k := FirstEnd(bars, v, i0, last);
    LastIs(bars, squareoff);
    forall b | b in s && bars[i0].mfo <= b.mfo && (k <= last ==> b.mfo < bars[k].mfo)
      ensures !Finishes(b, bars[last], v)
    {
      var j :| 0 <= j < |bars| && bars[j] == b;
      assert i0 <= j < k;
      EndsIff(bars, last, j, v);
    }
    if k <= last {
      EndsIff(bars, last, k, v);
    }
  }

  lemma {:induction false} ShortFromIs(bars: seq<Bar>, lo: int, squareoff: int, i0: int, v: Levels)
    requires Ascending(bars) && From(bars, lo) && 0 <= i0 <= LastAtOrBefore(bars, squareoff)
    ensures var last := LastAtOrBefore(bars, squareoff);
            ShortFill(Held(bars, lo, squareoff), bars[i0], bars[last], v, ShortFrom(bars, i0, last, v))
  {
    hide Held, FirstToFinish, Ends, Finishes, NextBar;
    var s, last := Held(bars, lo, squareoff), LastAtOrBefore(bars, squareoff);
    var f := ShortFrom(bars, i0, last, v);
    var k := FirstEnd(bars, v, i0, last);
    LastIs(bars, squareoff);
    FirstEndIs(bars, lo, squareoff, i0, v);
    if k <= last {
      EndsIff(bars, last, k, v);
      if StopHit(bars[k], v) {
        assert StopFill(f, bars[k], v);
      } else {
        assert Ends(bars[k], v, k == last);
        BeforeLast(bars[k], v, k == last);
        NextIs(bars, lo, squareoff, bars[k].mfo, k + 1);
        assert NextOpenFill(f, s, bars[k], bars[k + 1], v);
      }
    }
  }

  lemma {:induction false} BeforeLast(b: Bar, v: Levels, isLast: bool)
    requires Ends(b, v, isLast) && !StopHit(b, v)
    ensures !isLast
  {
  }

  /** The short fills exactly as described, on exactly the positions that can be held, at a positive price. */
  lemma {:induction false} ShortIff(bars: seq<Bar>, lo: int, entryMfo: int, squareoff: int, v: Levels, f: Exit)
    requires Ascending(bars) && From(bars, lo)
    ensures Short(bars, entryMfo, squareoff, v) == Some(f) <==>
            f.exitPx > 0.0
            && exists e, z :: Holds(Held(bars, lo, squareoff), entryMfo, e, z)
                              && ShortFill(Held(bars, lo, squareoff), e, z, v, f)
  {
    hide ShortFill, ShortFrom, Held;
    var s := Held(bars, lo, squareoff);
    HeldDistinct(bars, lo, squareoff);
    if Enters(bars, entryMfo, squareoff) {
      var i0, last := EntryIndex(bars, entryMfo).value, LastAtOrBefore(bars, squareoff);
      HoldsIff(bars, lo, entryMfo, squareoff, bars[i0], bars[last]);
      ShortFromIs(bars, lo, squareoff, i0, v);
      if ShortFill(s, bars[i0], bars[last], v, f) {
        ShortFillUnique(s, bars[i0], bars[last], v, f, ShortFrom(bars, i0, last, v));
      }
    }
    forall e, z | Holds(s, entryMfo, e, z)
      ensures Enters(bars, entryMfo, squareoff)
      ensures e == bars[EntryIndex(bars, entryMfo).value] && z == bars[LastAtOrBefore(bars, squareoff)]
    {
      HoldsIff(bars, lo, entryMfo, squareoff, e, z);
    }
  }

  // ---------------------------------------------------------------- trades

  /** h is the highest high of the bars with their minute in [lo, hi], of which there is one. */
  predicate IsHigh(t: seq<Bar>, lo: int, hi: int, h: real) {
    (exists b :: b in t && lo <= b.mfo <= hi && b.h == h) && forall b | b in t && lo <= b.mfo <= hi :: b.h <= h
  }

  /** h is the highest high of the session through minute hi. */
  predicate IsSessionHigh(t: seq<Bar>, hi: int, h: real) {
    (exists b :: b in t && b.mfo <= hi && b.h == h) && forall b | b in t && b.mfo <= hi :: b.h <= h
  }

  /**
   The failure level is the opening range's high (09:15 to 09:29, no later than the decision), or the
   decision bar's own, or none; the stop is the session's high through the decision bar, or none.
   */
  predicate LevelsAre(t: seq<Bar>, spec: RuleSpec, v: Levels) {
    && v.trigger == spec.trigger
    && (match spec.exitKind
        case OrHighLevel => v.exitLevel.Some? && IsHigh(t, 0, Min(14, spec.decision), v.exitLevel.value)
        case TBarHighLevel => v.exitLevel.Some? && IsHigh(t, spec.decision, spec.decision, v.exitLevel.value)
        case NoLevel => v.exitLevel == None)
    && (if spec.sessionStop then v.stopLevel.Some? && IsSessionHigh(t, spec.decision, v.stopLevel.value)
        else v.stopLevel == None)
  }

  /** The session has a bar of the opening range by the decision, and the decision bar. */
  predicate HasLevels(t: seq<Bar>, decision: int) {
    && (exists b :: b in t && 0 <= b.mfo <= Min(14, decision))
    && exists b :: b in t && b.mfo == decision
  }

  lemma {:induction false} HighInRange(t: seq<Bar>, lo: int, hi: int)
    ensures HighIn(t, Some(lo), hi).Some? <==> exists b :: b in t && lo <= b.mfo <= hi
    ensures forall h :: HighIn(t, Some(lo), hi) == Some(h) <==> IsHigh(t, lo, hi, h)
  {
    HighInIs(t, Some(lo), hi);
  }

  lemma {:induction false} SessionHighIs(t: seq<Bar>, hi: int)
    requires exists b :: b in t && b.mfo <= hi
    ensures HighIn(t, None, hi).Some?
    ensures forall h :: HighIn(t, None, hi) == Some(h) <==> IsSessionHigh(t, hi, h)
  {
    HighInIs(t, None, hi);
  }

  lemma {:induction false} LevelsIff(t: seq<Bar>, spec: RuleSpec, v: Levels)
    requires OrHigh(t, spec.decision).Some? && HighT(t, spec.decision).Some?
    ensures LevelsOf(t, spec) == v <==> LevelsAre(t, spec, v)
  {
    hide HighIn, IsHigh, IsSessionHigh;
    HighInRange(t, 0, Min(14, spec.decision));
    HighInRange(t, spec.decision, spec.decision);
    SessionHighIs(t, spec.decision);
  }

  /** Sold at e's open, one minute after the decision, under the spec's levels, and bought back as described. */
  ghost predicate Trades(t: seq<Bar>, spec: RuleSpec, squareoff: int, v: Levels, e: Bar, z: Bar, f: Exit) {
    var s := Held(t, spec.decision + 1, squareoff);
    LevelsAre(t, spec, v) && Holds(s, spec.decision + 1, e, z) && ShortFill(s, e, z, v, f)
  }

  /**
   A fade trade: on a session with an opening range and a decision bar, sold at the open of the bar one
   minute after the decision, with levels that are highs of the bars through it, bought back as described.
   */
  lemma {:induction false} FadeTradeIff(t: seq<Bar>, spec: RuleSpec, squareoff: int, f: Exit)
    requires Ascending(t)
    ensures FadeTrade(t, spec, squareoff) == Some(f) <==>
            HasLevels(t, spec.decision) && f.exitPx > 0.0
            && exists v, e, z :: Trades(t, spec, squareoff, v, e, z, f)
  {
    hide HighIn, LevelsAre, LevelsOf, Short, Between, Held, Holds, ShortFill;
    var m := spec.decision + 1;
    HighInRange(t, 0, Min(14, spec.decision));
    HighInRange(t, spec.decision, spec.decision);
    if OrHigh(t, spec.decision).Some? && HighT(t, spec.decision).Some? {
      BetweenAscends(t, m, squareoff);
      CutFrom(t, m, squareoff);
      HeldOfCut(t, m, squareoff);
      ShortIff(Between(t, m, squareoff), m, m, squareoff, LevelsOf(t, spec), f);
      LevelsIff(t, spec, LevelsOf(t, spec));
      assert forall e, z :: Trades(t, spec, squareoff, LevelsOf(t, spec), e, z, f) <==>
                            Holds(Held(t, m, squareoff), m, e, z)
                            && ShortFill(Held(t, m, squareoff), e, z, LevelsOf(t, spec), f);
      forall v | LevelsAre(t, spec, v) ensures v == LevelsOf(t, spec) {
        LevelsIff(t, spec, v);
      }
    }
  }
}
