/** The short exit of scripts/backtest_fade.py, `simulate_short`. */
module FadeExits {
  import opened Common
  import opened Tape

  datatype Trigger = OnClose | OnHigh

  datatype Reason = FadeFailedNextOpen | StopNextOpen | StopIntrabar | Squareoff

  datatype Exit = Exit(entryPx: real, exitPx: real, exitMfo: int, reason: Reason)

  /** The levels a short is given; either may be absent. */
  datatype Levels = Levels(exitLevel: Option<real>, stopLevel: Option<real>, trigger: Trigger)

  predicate StopHit(b: Bar, v: Levels) {
    v.trigger == OnHigh && v.stopLevel.Some? && b.h > v.stopLevel.value
  }

  predicate FadeFails(b: Bar, v: Levels) {
    v.exitLevel.Some? && b.c > v.exitLevel.value
  }

  predicate StopCloses(b: Bar, v: Levels) {
    v.trigger == OnClose && v.stopLevel.Some? && b.c > v.stopLevel.value
  }

  /** Bar k ends the scan: a stop inside it, or (before the squareoff bar) a close above a level. */
  predicate Ends(b: Bar, v: Levels, isLast: bool) {
    StopHit(b, v) || (!isLast && (FadeFails(b, v) || StopCloses(b, v)))
  }

  /** The first bar of [lo, last] that ends the scan, or last + 1. */
  function FirstEnd(bars: seq<Bar>, v: Levels, lo: int, last: int): (k: int)
    requires 0 <= lo <= last + 1 <= |bars|
    ensures lo <= k <= last + 1
    ensures forall j | lo <= j < k :: !Ends(bars[j], v, j == last)
    ensures k <= last ==> Ends(bars[k], v, k == last)
    decreases last - lo
  {
    if lo > last || Ends(bars[lo], v, lo == last) then lo else FirstEnd(bars, v, lo + 1, last)
  }

  /** The exit of a short entered at bar i0, before the corrupt-price check. */
  function ShortFrom(bars: seq<Bar>, i0: int, last: int, v: Levels): Exit
    requires 0 <= i0 <= last < |bars|
  {
    var k := FirstEnd(bars, v, i0, last);
    if k > last then Exit(bars[i0].o, bars[last].c, bars[last].mfo, Squareoff)
    else if StopHit(bars[k], v) then
      Exit(bars[i0].o, MaxReal(v.stopLevel.value, bars[k].o), bars[k].mfo, StopIntrabar)
    else
      Exit(bars[i0].o, bars[k + 1].o, bars[k + 1].mfo,
           if FadeFails(bars[k], v) then FadeFailedNextOpen else StopNextOpen)
  }

  predicate Tradeable(bars: seq<Bar>, entryMfo: int, squareoff: int) {
    var i0 := EntryIndex(bars, entryMfo);
    i0.Some? && i0.value <= LastAtOrBefore(bars, squareoff) && bars[i0.value].o > 0.0
  }

  function Raw(bars: seq<Bar>, entryMfo: int, squareoff: int, v: Levels): Exit
    requires Tradeable(bars, entryMfo, squareoff)
  {
    ShortFrom(bars, EntryIndex(bars, entryMfo).value, LastAtOrBefore(bars, squareoff), v)
  }

  /** A non-positive exit price is a corrupt bar, and drops the trade. */
  function Short(bars: seq<Bar>, entryMfo: int, squareoff: int, v: Levels): Option<Exit> {
    if !Tradeable(bars, entryMfo, squareoff) then None
    else
      var x := Raw(bars, entryMfo, squareoff, v);
      if x.exitPx > 0.0 then Some(x) else None
  }

  function Checked(x: Exit): Option<Exit> {
    if x.exitPx > 0.0 then Some(x) else None
  }

  method SimulateShort(bars: seq<Bar>, entryMfo: int, squareoff: int, v: Levels) returns (r: Option<Exit>)
    ensures r == Short(bars, entryMfo, squareoff, v)
  {
    var i0 := EntryIndex(bars, entryMfo);
    if i0.None? {
      return None;
    }
    var last := |bars| - 1;
    while last >= 0 && bars[last].mfo > squareoff
      invariant -1 <= last < |bars|
      invariant forall j | last < j < |bars| :: bars[j].mfo > squareoff
    {
      last := last - 1;
    }
    LastUnique(bars, squareoff, last);
    if last < i0.value {
      return None;
    }
    var entryPx := bars[i0.value].o;
    if entryPx <= 0.0 {
      return None;
    }
    var intrabar := v.trigger == OnHigh && v.stopLevel.Some?;
    var k := i0.value;
    while k <= last
      invariant i0.value <= k <= last + 1
      invariant forall j | i0.value <= j < k :: !Ends(bars[j], v, j == last)
    {
      if intrabar && bars[k].h > v.stopLevel.value {
        return Checked(Exit(entryPx, MaxReal(v.stopLevel.value, bars[k].o), bars[k].mfo, StopIntrabar));
      }
      if k == last {
        break;
      }
      var c := bars[k].c;
      if v.exitLevel.Some? && c > v.exitLevel.value {
        return Checked(Exit(entryPx, bars[k + 1].o, bars[k + 1].mfo, FadeFailedNextOpen));
      }
      if v.stopLevel.Some? && v.trigger == OnClose && c > v.stopLevel.value {
        return Checked(Exit(entryPx, bars[k + 1].o, bars[k + 1].mfo, StopNextOpen));
      }
      k := k + 1;
    }
    return Checked(Exit(entryPx, bars[last].c, bars[last].mfo, Squareoff));
  }

  // ---------------------------------------------------------------- stop dominance

  predicate Dominated(v: Levels) {
    v.stopLevel.Some? ==> v.exitLevel.Some? && v.exitLevel.value <= v.stopLevel.value
  }

  /** Under the close trigger a stop at or above the failure level changes nothing. */
  lemma {:induction false} CloseStopIsDominated(bars: seq<Bar>, entryMfo: int, squareoff: int, v: Levels)
    requires v.trigger == OnClose && Dominated(v)
    ensures Short(bars, entryMfo, squareoff, v) == Short(bars, entryMfo, squareoff, v.(stopLevel := None))
    ensures Short(bars, entryMfo, squareoff, v).Some? ==>
            Short(bars, entryMfo, squareoff, v).value.reason != StopNextOpen
  {
    if Tradeable(bars, entryMfo, squareoff) {
      var i0, last := EntryIndex(bars, entryMfo).value, LastAtOrBefore(bars, squareoff);
      var w := v.(stopLevel := None);
      assert forall j | i0 <= j <= last :: Ends(bars[j], v, j == last) == Ends(bars[j], w, j == last);
      var k, k' := FirstEnd(bars, v, i0, last), FirstEnd(bars, w, i0, last);
      assert k == k';
    }
  }

  predicate PositiveLevels(v: Levels) {
    && (v.exitLevel.Some? ==> v.exitLevel.value > 0.0)
    && (v.stopLevel.Some? ==> v.stopLevel.value > 0.0)
  }

  /** On no well-formed tape, for no entry minute and squareoff, does the close-triggered stop end the scan. */
  ghost predicate NeverStops(v: Levels) {
    forall bars: seq<Bar>, entryMfo: int, squareoff: int | Ascending(bars) && WellFormed(bars) ::
      var x := Short(bars, entryMfo, squareoff, v); x.Some? ==> x.value.reason != StopNextOpen
  }

  /** The close-triggered stop is dead on every well-formed tape exactly when it is not below the failure level. */
  lemma {:induction false} CloseStopDeadIff(v: Levels)
    requires v.trigger == OnClose && PositiveLevels(v)
    ensures NeverStops(v) <==> Dominated(v)
  {
    if Dominated(v) {
      forall bars: seq<Bar>, entryMfo: int, squareoff: int | Ascending(bars) && WellFormed(bars)
        ensures var x := Short(bars, entryMfo, squareoff, v); x.Some? ==> x.value.reason != StopNextOpen
      {
        CloseStopIsDominated(bars, entryMfo, squareoff, v);
      }
    } else {
      var bars := FlatTape(if v.exitLevel.Some? then v.exitLevel.value else v.stopLevel.value + 1.0);
      FlatTapeStops(v);
      assert Ascending(bars) && WellFormed(bars);
    }
  }

  /** Two bars that trade at one price. */
  function FlatTape(c: real): seq<Bar> {
    [Bar(0, c, c, c, c, 0.0), Bar(1, c, c, c, c, 0.0)]
  }

  lemma {:induction false} FlatTapeStops(v: Levels)
    requires v.trigger == OnClose && PositiveLevels(v) && !Dominated(v)
    ensures var c := if v.exitLevel.Some? then v.exitLevel.value else v.stopLevel.value + 1.0;
            Short(FlatTape(c), 0, 1, v) == Some(Exit(c, c, 1, StopNextOpen))
  {
    var c := if v.exitLevel.Some? then v.exitLevel.value else v.stopLevel.value + 1.0;
    var bars := FlatTape(c);
    EntryIndexIsFirst(bars, 0, 0);
    assert LastAtOrBefore(bars, 1) == 1;
    assert Ends(bars[0], v, false);
    assert FirstEnd(bars, v, 0, 1) == 0;
  }

  // ---------------------------------------------------------------- the high trigger

  /**
   With the same levels the high-triggered exit is never later than the close-triggered one; it is
   the same exit unless some bar up to there trades above the stop, and then it is the first such bar.
   */
  lemma {:induction false} HighTriggerIsEarlier(bars: seq<Bar>, entryMfo: int, squareoff: int, v: Levels)
    requires Ascending(bars) && Tradeable(bars, entryMfo, squareoff) && Dominated(v)
    ensures var onClose := Raw(bars, entryMfo, squareoff, v.(trigger := OnClose));
            var onHigh := Raw(bars, entryMfo, squareoff, v.(trigger := OnHigh));
            && onHigh.exitMfo <= onClose.exitMfo && onHigh.entryPx == onClose.entryPx
            && (onHigh == onClose || onHigh.reason == StopIntrabar)
            && (onHigh.reason == StopIntrabar ==> onHigh.exitPx >= v.stopLevel.value)
  {
    var i0, last := EntryIndex(bars, entryMfo).value, LastAtOrBefore(bars, squareoff);
    var a, b := v.(trigger := OnClose), v.(trigger := OnHigh);
    var k, k' := FirstEnd(bars, a, i0, last), FirstEnd(bars, b, i0, last);
    assert forall j | i0 <= j <= last :: Ends(bars[j], a, j == last) ==> Ends(bars[j], b, j == last);
    assert k' <= k;
  }

  /** A tape on which the stop is touched, the bar closes above it, and the next bar opens higher still. */
  function RunAway(stop: real): seq<Bar> {
    var top := MaxReal(stop, 1.0) + 1.0;
    [Bar(0, 1.0, top, 1.0, top, 0.0), Bar(1, top, top, top, top, 0.0)]
  }

  lemma {:induction false} RunAwayExits(v: Levels)
    requires v.stopLevel.Some? && Dominated(v)
    ensures var s := v.stopLevel.value;
            && Short(RunAway(s), 0, 1, v.(trigger := OnHigh)) == Some(Exit(1.0, MaxReal(s, 1.0), 0, StopIntrabar))
            && Short(RunAway(s), 0, 1, v.(trigger := OnClose)) ==
               Some(Exit(1.0, MaxReal(s, 1.0) + 1.0, 1, FadeFailedNextOpen))
  {
    var bars := RunAway(v.stopLevel.value);
    EntryIndexIsFirst(bars, 0, 0);
    assert LastAtOrBefore(bars, 1) == 1;
    assert FirstEnd(bars, v.(trigger := OnHigh), 0, 1) == 0;
    assert FirstEnd(bars, v.(trigger := OnClose), 0, 1) == 0;
  }

  /** On every well-formed tape the high-triggered buy-back is no cheaper than the close-triggered one. */
  ghost predicate NeverBetter(v: Levels) {
    forall bars: seq<Bar>, entryMfo: int, squareoff: int | Ascending(bars) && WellFormed(bars) ::
      var high := Short(bars, entryMfo, squareoff, v.(trigger := OnHigh));
      var close := Short(bars, entryMfo, squareoff, v.(trigger := OnClose));
      high.Some? && close.Some? ==> high.value.exitPx >= close.value.exitPx
  }

  /**
   The high-triggered cell buys back no cheaper than the close-triggered one on every tape only when
   there is no stop at all: with one, a later next-open buy-back can be dearer than the stop.
   */
  lemma {:induction false} HighTriggerNeverBetterIff(v: Levels)
    requires Dominated(v)
    ensures NeverBetter(v) <==> v.stopLevel.None?
  {
    var high, close := v.(trigger := OnHigh), v.(trigger := OnClose);
    if v.stopLevel.None? {
      forall bars: seq<Bar>, entryMfo: int, squareoff: int | Ascending(bars) && WellFormed(bars)
        ensures Short(bars, entryMfo, squareoff, high) == Short(bars, entryMfo, squareoff, close)
      {
        if Tradeable(bars, entryMfo, squareoff) {
          HighTriggerIsEarlier(bars, entryMfo, squareoff, v);
          NoStopNoIntrabar(bars, EntryIndex(bars, entryMfo).value, LastAtOrBefore(bars, squareoff), high);
        }
      }
    } else {
      RunAwayExits(v);
      assert Ascending(RunAway(v.stopLevel.value)) && WellFormed(RunAway(v.stopLevel.value));
    }
  }

  lemma {:induction false} NoStopNoIntrabar(bars: seq<Bar>, i0: int, last: int, v: Levels)
    requires 0 <= i0 <= last < |bars| && v.stopLevel.None?
    ensures ShortFrom(bars, i0, last, v).reason != StopIntrabar
  {
  }

  // ---------------------------------------------------------------- non-anticipation

  /** What an exit is read from: for a next-open fill, only the open of its bar. */
  predicate AgreeToExit(a: seq<Bar>, b: seq<Bar>, x: Exit) {
    if x.reason == FadeFailedNextOpen || x.reason == StopNextOpen then AgreeToOpen(a, b, x.exitMfo)
    else AgreeThrough(a, b, x.exitMfo)
  }

  lemma {:induction false} ShortFromNonAnticipating(a: seq<Bar>, b: seq<Bar>, i0: int, last: int, v: Levels)
    requires Ascending(a) && 0 <= i0 <= last < |a|
    requires AgreeToExit(a, b, ShortFrom(a, i0, last, v))
    ensures a[i0].o == b[i0].o
    ensures ShortFrom(b, i0, last, v) == ShortFrom(a, i0, last, v)
  {
    var x := ShortFrom(a, i0, last, v);
    var k, k' := FirstEnd(a, v, i0, last), FirstEnd(b, v, i0, last);
    var read := if k > last then last else k;
    assert x.reason == FadeFailedNextOpen || x.reason == StopNextOpen ==> a[k].mfo < x.exitMfo;
    forall j | 0 <= j <= read ensures a[j] == b[j] {
      assert a[j].mfo <= a[read].mfo;
    }
    assert k == k';
  }

  /** A short reads nothing after its exit, and of a next-open fill's bar only the open. */
  lemma {:induction false} ShortNonAnticipating(a: seq<Bar>, b: seq<Bar>, entryMfo: int, squareoff: int, v: Levels)
    requires Ascending(a) && Short(a, entryMfo, squareoff, v).Some?
    requires AgreeToExit(a, b, Short(a, entryMfo, squareoff, v).value)
    ensures Short(b, entryMfo, squareoff, v) == Short(a, entryMfo, squareoff, v)
  {
    SamePositions(a, b, entryMfo, squareoff);
    ShortFromNonAnticipating(a, b, EntryIndex(a, entryMfo).value, LastAtOrBefore(a, squareoff), v);
  }

  /** Nothing ends the scan before bar k. */
  predicate Quiet(bars: seq<Bar>, v: Levels, i0: int, k: int)
    requires 0 <= i0 <= k <= |bars|
  {
    forall j | i0 <= j < k :: !StopHit(bars[j], v) && !FadeFails(bars[j], v) && !StopCloses(bars[j], v)
  }

  /**
   Where and at what price the scan ends: inside the first bar that trades above an intrabar stop, at
   no better than the stop; else at the open right after the first close above a level, the failure
   level named first; else at the squareoff bar's close.
   */
  lemma {:induction false} ShortExit(bars: seq<Bar>, i0: int, last: int, v: Levels) returns (k: int)
    requires 0 <= i0 <= last < |bars|
    ensures i0 <= k <= last && Quiet(bars, v, i0, k)
    ensures var x := ShortFrom(bars, i0, last, v);
            match x.reason
            case StopIntrabar =>
              StopHit(bars[k], v) && x.exitMfo == bars[k].mfo
              && x.exitPx >= v.stopLevel.value && x.exitPx >= bars[k].o
              && (x.exitPx == v.stopLevel.value || x.exitPx == bars[k].o)
            case FadeFailedNextOpen =>
              k < last && !StopHit(bars[k], v) && FadeFails(bars[k], v)
              && x.exitMfo == bars[k + 1].mfo && x.exitPx == bars[k + 1].o
            case StopNextOpen =>
              k < last && !StopHit(bars[k], v) && !FadeFails(bars[k], v) && StopCloses(bars[k], v)
              && x.exitMfo == bars[k + 1].mfo && x.exitPx == bars[k + 1].o
            case Squareoff =>
              k == last && !StopHit(bars[k], v) && x.exitMfo == bars[k].mfo && x.exitPx == bars[k].c
  {
    k := FirstEnd(bars, v, i0, last);
    if k > last {
      k := last;
    }
  }
}
