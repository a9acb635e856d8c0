/** The two exits of scripts/backtest_candles.py, `simulate_e1` and `simulate_e2`. */
module CandleExits {
  import opened Common
  import opened Tape

  datatype Reason = Stop | Target | TrailNextOpen | Squareoff

  datatype Fill = Fill(
    entryPx: real, exitPx: real, exitMfo: int, reason: Reason,
    stopPx: Option<real>, targetPx: Option<real>, gapThrough: bool)

  // ---------------------------------------------------------------- E1: fixed stop and target

  function TargetPx(entryPx: real, stopPx: real, r: real): real {
    entryPx + r * (entryPx - stopPx)
  }

  predicate Touches(b: Bar, stopPx: real, targetPx: real) {
    b.l <= stopPx || b.h >= targetPx
  }

  /** The first bar of [lo, hi) that touches a level, or hi. */
  function FirstTouch(bars: seq<Bar>, stopPx: real, targetPx: real, lo: int, hi: int): (k: int)
    requires 0 <= lo <= hi <= |bars|
    ensures lo <= k <= hi
    ensures forall j | lo <= j < k :: !Touches(bars[j], stopPx, targetPx)
    ensures k < hi ==> Touches(bars[k], stopPx, targetPx)
    decreases hi - lo
  {
    if lo == hi || Touches(bars[lo], stopPx, targetPx) then lo else FirstTouch(bars, stopPx, targetPx, lo + 1, hi)
  }

  /** The exit of a position entered at bar i0, with `last` the squareoff bar. */
  function E1From(bars: seq<Bar>, i0: int, last: int, stopPx: real, r: real): Fill
    requires 0 <= i0 <= last < |bars|
  {
    var entryPx := bars[i0].o;
    var targetPx := TargetPx(entryPx, stopPx, r);
    var k := FirstTouch(bars, stopPx, targetPx, i0 + 1, last + 1);
    if k > last then
      Fill(entryPx, bars[last].c, bars[last].mfo, Squareoff, Some(stopPx), Some(targetPx), false)
    else if bars[k].l <= stopPx then
      Fill(entryPx, stopPx, bars[k].mfo, Stop, Some(stopPx), Some(targetPx), bars[k].o < stopPx)
    else
      Fill(entryPx, targetPx, bars[k].mfo, Target, Some(stopPx), Some(targetPx), false)
  }

  /** The stop is None when it is not a finite number. */
  function E1(bars: seq<Bar>, entryMfo: int, stop: Option<real>, r: real, squareoff: int): Option<Fill> {
    var i0 := EntryIndex(bars, entryMfo);
    var last := LastAtOrBefore(bars, squareoff);
    if i0.None? || bars[i0.value].o <= 0.0 || stop.None? || stop.value >= bars[i0.value].o || last < i0.value then None
    else Some(E1From(bars, i0.value, last, stop.value, r))
  }

  method SimulateE1(bars: seq<Bar>, entryMfo: int, stop: Option<real>, r: real, squareoff: int)
    returns (fill: Option<Fill>)
    ensures fill == E1(bars, entryMfo, stop, r, squareoff)
  {
    var i0 := EntryIndex(bars, entryMfo);
    if i0.None? {
      return None;
    }
    var entryPx := bars[i0.value].o;
    if entryPx <= 0.0 {
      return None;
    }
    if stop.None? || stop.value >= entryPx {
      return None;
    }
    var last := |bars| - 1;
    while last >= 0 && bars[last].mfo > squareoff
      invariant -1 <= last < |bars|
      invariant forall j | last < j < |bars| :: bars[j].mfo > squareoff
    {
      last := last - 1;
    }
    LastUnique(bars, squareoff, last);
    if last < i0.value {
      return None;
    }
    var targetPx := TargetPx(entryPx, stop.value, r);
    var k := i0.value + 1;
    while k <= last
      invariant i0.value + 1 <= k <= last + 1
      invariant forall j | i0.value + 1 <= j < k :: !Touches(bars[j], stop.value, targetPx)
    {
      if bars[k].l <= stop.value {
        return Some(Fill(entryPx, stop.value, bars[k].mfo, Stop, stop, Some(targetPx), bars[k].o < stop.value));
      }
      if bars[k].h >= targetPx {
        return Some(Fill(entryPx, targetPx, bars[k].mfo, Target, stop, Some(targetPx), false));
      }
      k := k + 1;
    }
    return Some(Fill(entryPx, bars[last].c, bars[last].mfo, Squareoff, stop, Some(targetPx), false));
  }

  /** Realised profit in units of the risk taken, entry minus stop. */
  function Payoff(f: Fill): real
    requires f.stopPx.Some? && f.stopPx.value < f.entryPx
  {
    (f.exitPx - f.entryPx) / (f.entryPx - f.stopPx.value)
  }

  lemma {:induction false} PayoffOf(entryPx: real, stopPx: real, r: real, exitPx: real)
    requires stopPx < entryPx
    ensures var x := (exitPx - entryPx) / (entryPx - stopPx);
            && (exitPx > stopPx <==> x > -1.0) && (exitPx < TargetPx(entryPx, stopPx, r) <==> x < r)
            && (exitPx == stopPx <==> x == -1.0) && (exitPx == TargetPx(entryPx, stopPx, r) <==> x == r)
  {
    var d := entryPx - stopPx;
    var x := (exitPx - entryPx) / d;
    assert x * d == exitPx - entryPx;
    RealMulOrder(x, -1.0, d);
    RealMulOrder(x, r, d);
  }

  lemma {:induction false} RealMulOrder(a: real, b: real, d: real)
    requires d > 0.0
    ensures a < b <==> a * d < b * d
    ensures a == b <==> a * d == b * d
  {
    if a < b {
      assert (b - a) * d > 0.0;
    } else if b < a {
      assert (a - b) * d > 0.0;
    }
  }

  /** With a bar to scan, a stop loses exactly 1, a target makes exactly r, a squareoff lies between. */
  lemma {:induction false} E1Payoff(bars: seq<Bar>, entryMfo: int, stop: Option<real>, r: real, squareoff: int)
    requires WellFormed(bars)
    requires E1(bars, entryMfo, stop, r, squareoff).Some?
    requires EntryIndex(bars, entryMfo).value < LastAtOrBefore(bars, squareoff)
    ensures var f := E1(bars, entryMfo, stop, r, squareoff).value;
            && (f.reason == Stop ==> Payoff(f) == -1.0)
            && (f.reason == Target ==> Payoff(f) == r)
            && (f.reason == Squareoff ==> -1.0 < Payoff(f) < r)
            && f.reason != TrailNextOpen
  {
    var f := E1(bars, entryMfo, stop, r, squareoff).value;
    var i0, last := EntryIndex(bars, entryMfo).value, LastAtOrBefore(bars, squareoff);
    PayoffOf(f.entryPx, stop.value, r, f.exitPx);
    var k := FirstTouch(bars, stop.value, f.targetPx.value, i0 + 1, last + 1);
    if k > last {
      assert !Touches(bars[last], stop.value, f.targetPx.value);
    }
  }

  /** The exit is the first bar after entry, up to squareoff, that touches a level; a stop wins ties. */
  lemma {:induction false} E1FirstTouch(
      bars: seq<Bar>, entryMfo: int, stop: Option<real>, r: real, squareoff: int, k: int)
    requires E1(bars, entryMfo, stop, r, squareoff).Some?
    requires EntryIndex(bars, entryMfo).value < k <= LastAtOrBefore(bars, squareoff)
    requires Ascending(bars)
    ensures var f := E1(bars, entryMfo, stop, r, squareoff).value;
            && (bars[k].mfo < f.exitMfo ==> bars[k].l > stop.value && bars[k].h < f.targetPx.value)
            && (bars[k].mfo == f.exitMfo ==>
                  && (f.reason == Stop <==> bars[k].l <= stop.value)
                  && (f.reason == Target <==> bars[k].l > stop.value && bars[k].h >= f.targetPx.value))
            && (f.reason != Squareoff ==> f.exitMfo > entryMfo)
  {
    Positions(bars, entryMfo, squareoff);
    var f := E1(bars, entryMfo, stop, r, squareoff).value;
    var i0, last := EntryIndex(bars, entryMfo).value, LastAtOrBefore(bars, squareoff);
    var x := FirstTouch(bars, stop.value, f.targetPx.value, i0 + 1, last + 1);
    assert k < x ==> !Touches(bars[k], stop.value, f.targetPx.value);
    assert x <= last ==> f.exitMfo == bars[x].mfo;
  }

  predicate E1Bounded(t: seq<Bar>, entryMfo: int, stop: Option<real>, r: real, squareoff: int) {
    var f := E1(t, entryMfo, stop, r, squareoff);
    f.Some? ==> -1.0 <= Payoff(f.value) <= r
  }

  /**
   On given minutes the payoff stays in [-1, r] for every well-formed price path exactly when some
   bar follows the entry bar up to squareoff: the entry bar itself is never checked against the levels.
   */
  lemma {:induction false} E1BoundIff(minutes: seq<Bar>, entryMfo: int, stopPx: real, r: real, squareoff: int)
    requires EntryIndex(minutes, entryMfo).Some? && stopPx > 0.0 && r >= -1.0
    requires EntryIndex(minutes, entryMfo).value <= LastAtOrBefore(minutes, squareoff)
    ensures (forall t: seq<Bar> | SameMinutes(t, minutes) && WellFormed(t) ::
               E1Bounded(t, entryMfo, Some(stopPx), r, squareoff))
            <==> EntryIndex(minutes, entryMfo).value < LastAtOrBefore(minutes, squareoff)
  {
    if EntryIndex(minutes, entryMfo).value < LastAtOrBefore(minutes, squareoff) {
      forall t: seq<Bar> | SameMinutes(t, minutes) && WellFormed(t)
        ensures E1Bounded(t, entryMfo, Some(stopPx), r, squareoff)
      {
        SamePositions(t, minutes, entryMfo, squareoff);
        if E1(t, entryMfo, Some(stopPx), r, squareoff).Some? {
          E1Payoff(t, entryMfo, Some(stopPx), r, squareoff);
        }
      }
    } else {
      var t := CrashOnEntry(minutes, stopPx);
      E1Escapes(minutes, entryMfo, stopPx, r, squareoff);
      assert SameMinutes(t, minutes) && WellFormed(t) && !E1Bounded(t, entryMfo, Some(stopPx), r, squareoff);
    }
  }

  /** Every bar opens above the stop and closes at half of it. */
  function CrashOnEntry(minutes: seq<Bar>, stopPx: real): (t: seq<Bar>)
    ensures SameMinutes(t, minutes)
    ensures forall i | 0 <= i < |t| :: t[i].o == t[i].h == stopPx + 1.0 && t[i].l == t[i].c == stopPx / 2.0
  {
    seq(|minutes|, i requires 0 <= i < |minutes| =>
      Bar(minutes[i].mfo, stopPx + 1.0, stopPx + 1.0, stopPx / 2.0, stopPx / 2.0, 0.0))
  }

  lemma {:induction false} E1Escapes(minutes: seq<Bar>, entryMfo: int, stopPx: real, r: real, squareoff: int)
    requires EntryIndex(minutes, entryMfo).Some? && stopPx > 0.0
    requires EntryIndex(minutes, entryMfo).value == LastAtOrBefore(minutes, squareoff)
    ensures !E1Bounded(CrashOnEntry(minutes, stopPx), entryMfo, Some(stopPx), r, squareoff)
  {
    var t := CrashOnEntry(minutes, stopPx);
    SamePositions(t, minutes, entryMfo, squareoff);
    var i0 := EntryIndex(t, entryMfo).value;
    EntryBarSquareoff(t, i0, stopPx, r);
    BelowStop(E1From(t, i0, i0, stopPx, r));
  }

  lemma {:induction false} EntryBarSquareoff(t: seq<Bar>, i0: int, stopPx: real, r: real)
    requires 0 <= i0 < |t|
    ensures var f := E1From(t, i0, i0, stopPx, r);
            f.entryPx == t[i0].o && f.exitPx == t[i0].c && f.stopPx == Some(stopPx)
  {
  }

  lemma {:induction false} BelowStop(f: Fill)
    requires f.stopPx.Some? && f.exitPx < f.stopPx.value < f.entryPx
    ensures Payoff(f) < -1.0
  {
    PayoffOf(f.entryPx, f.stopPx.value, 0.0, f.exitPx);
  }

  lemma {:induction false} E1FromNonAnticipating(a: seq<Bar>, b: seq<Bar>, i0: int, last: int, stopPx: real, r: real)
    requires 0 <= i0 <= last < |a| && Ascending(a)
    requires AgreeThrough(a, b, E1From(a, i0, last, stopPx, r).exitMfo)
    ensures E1From(b, i0, last, stopPx, r) == E1From(a, i0, last, stopPx, r)
  {
    var targetPx := TargetPx(a[i0].o, stopPx, r);
    var k := FirstTouch(a, stopPx, targetPx, i0 + 1, last + 1);
    var exit := if k > last then last else k;
    forall j | 0 <= j <= exit ensures a[j] == b[j] {
      assert a[j].mfo <= a[exit].mfo;
    }
    var k' := FirstTouch(b, stopPx, targetPx, i0 + 1, last + 1);
    assert k' == k;
  }

  /** E1 reads nothing after its exit bar. */
  lemma {:induction false} E1NonAnticipating(
      a: seq<Bar>, b: seq<Bar>, entryMfo: int, stop: Option<real>, r: real, squareoff: int)
    requires Ascending(a) && E1(a, entryMfo, stop, r, squareoff).Some?
    requires AgreeThrough(a, b, E1(a, entryMfo, stop, r, squareoff).value.exitMfo)
    ensures E1(b, entryMfo, stop, r, squareoff) == E1(a, entryMfo, stop, r, squareoff)
  {
    SamePositions(a, b, entryMfo, squareoff);
    var i0, last := EntryIndex(a, entryMfo).value, LastAtOrBefore(a, squareoff);
    E1ExitAfterEntry(a, i0, last, stop.value, r);
    E1FromNonAnticipating(a, b, i0, last, stop.value, r);
  }

  lemma {:induction false} E1ExitAfterEntry(bars: seq<Bar>, i0: int, last: int, stopPx: real, r: real)
    requires 0 <= i0 <= last < |bars| && Ascending(bars)
    ensures bars[i0].mfo <= E1From(bars, i0, last, stopPx, r).exitMfo <= bars[last].mfo
  {
  }

  // ---------------------------------------------------------------- E2: the five-minute trail

  /** A completed five-minute bar, and the low of the one before it. */
  datatype Trail = Trail(bk: int, lastMfo: int, c: real, priorLow: real)

  /** A bar after the signal bar, over before the squareoff minute, that closed below the prior low. */
  predicate Breaks(x: Trail, signalBk: int, lastMinute: int) {
    x.bk > signalBk && x.lastMfo < lastMinute && x.c < x.priorLow
  }

  function FirstBreak(trail: seq<Trail>, signalBk: int, lastMinute: int, lo: int): (j: int)
    requires 0 <= lo <= |trail|
    ensures lo <= j <= |trail|
    ensures forall x | lo <= x < j :: !Breaks(trail[x], signalBk, lastMinute)
    ensures j < |trail| ==> Breaks(trail[j], signalBk, lastMinute)
    decreases |trail| - lo
  {
    if lo == |trail| || Breaks(trail[lo], signalBk, lastMinute) then lo
    else FirstBreak(trail, signalBk, lastMinute, lo + 1)
  }

  /** The first bar of [lo, hi) after minute m, or hi. */
  function FirstAfter(bars: seq<Bar>, m: int, lo: int, hi: int): (k: int)
    requires 0 <= lo <= hi <= |bars|
    ensures lo <= k <= hi
    ensures forall x | lo <= x < k :: bars[x].mfo <= m
    ensures k < hi ==> bars[k].mfo > m
    decreases hi - lo
  {
    if lo == hi || bars[lo].mfo > m then lo else FirstAfter(bars, m, lo + 1, hi)
  }

  /** The exit of a position entered at bar i0, with `last` the squareoff bar. */
  function E2From(bars: seq<Bar>, trail: seq<Trail>, i0: int, last: int, signalBk: int): Fill
    requires 0 <= i0 <= last < |bars|
  {
    var j := FirstBreak(trail, signalBk, bars[last].mfo, 0);
    var k := if j == |trail| then last + 1 else FirstAfter(bars, trail[j].lastMfo, i0 + 1, last + 1);
    if k > last then Fill(bars[i0].o, bars[last].c, bars[last].mfo, Squareoff, None, None, false)
    else Fill(bars[i0].o, bars[k].o, bars[k].mfo, TrailNextOpen, None, None, false)
  }

  function E2(bars: seq<Bar>, trail: seq<Trail>, entryMfo: int, signalBk: int, squareoff: int): Option<Fill> {
    var i0 := EntryIndex(bars, entryMfo);
    var last := LastAtOrBefore(bars, squareoff);
    if i0.None? || bars[i0.value].o <= 0.0 || last < i0.value then None
    else Some(E2From(bars, trail, i0.value, last, signalBk))
  }

  method SimulateE2(bars: seq<Bar>, trail: seq<Trail>, entryMfo: int, signalBk: int, squareoff: int)
    returns (fill: Option<Fill>)
    ensures fill == E2(bars, trail, entryMfo, signalBk, squareoff)
  {
    var i0 := EntryIndex(bars, entryMfo);
    if i0.None? {
      return None;
    }
    var entryPx := bars[i0.value].o;
    if entryPx <= 0.0 {
      return None;
    }
    var last := |bars| - 1;
    while last >= 0 && bars[last].mfo > squareoff
      invariant -1 <= last < |bars|
      invariant forall j | last < j < |bars| :: bars[j].mfo > squareoff
    {
      last := last - 1;
    }
    LastUnique(bars, squareoff, last);
    if last < i0.value {
      return None;
    }
    var j := 0;
    while j < |trail|
      invariant 0 <= j <= |trail|
      invariant forall x | 0 <= x < j :: !Breaks(trail[x], signalBk, bars[last].mfo)
    {
      if trail[j].bk <= signalBk || trail[j].lastMfo >= bars[last].mfo {
        j := j + 1;
        continue;
      }
      if trail[j].c < trail[j].priorLow {
        var k := i0.value + 1;
        while k <= last
          invariant i0.value + 1 <= k <= last + 1
          invariant forall x | i0.value + 1 <= x < k :: bars[x].mfo <= trail[j].lastMfo
        {
          if bars[k].mfo > trail[j].lastMfo {
            return Some(Fill(entryPx, bars[k].o, bars[k].mfo, TrailNextOpen, None, None, false));
          }
          k := k + 1;
        }
        break;
      }
      j := j + 1;
    }
    return Some(Fill(entryPx, bars[last].c, bars[last].mfo, Squareoff, None, None, false));
  }

  /**
   A position enters at its entry minute's open, and a trail exit fills at the first bar after the minute
   of the first later five-minute bar that closed below its predecessor's low. Once some bar follows the
   entry up to squareoff a triggered trail always fills; a position entered on the squareoff bar is squared
   off there, triggered or not.
   */
  lemma {:induction false} E2Exit(bars: seq<Bar>, trail: seq<Trail>, entryMfo: int, signalBk: int, squareoff: int)
    requires Ascending(bars) && E2(bars, trail, entryMfo, signalBk, squareoff).Some?
    ensures var f := E2(bars, trail, entryMfo, signalBk, squareoff).value;
            var i0, last := EntryIndex(bars, entryMfo).value, LastAtOrBefore(bars, squareoff);
            var j := FirstBreak(trail, signalBk, bars[last].mfo, 0);
            && (exists k :: 0 <= k < |bars| && bars[k].mfo == entryMfo && bars[k].o == f.entryPx)
            && (f.reason == TrailNextOpen <==> j < |trail| && i0 < last)
            && (f.reason != TrailNextOpen ==>
                  f.reason == Squareoff && f.exitMfo == bars[last].mfo && f.exitPx == bars[last].c)
            && (f.reason == TrailNextOpen ==>
                  && trail[j].lastMfo < f.exitMfo <= bars[last].mfo
                  && (exists k :: 0 <= k < |bars| && bars[k].mfo == f.exitMfo && bars[k].o == f.exitPx)
                  && forall k | 0 <= k < |bars| && entryMfo < bars[k].mfo < f.exitMfo ::
                       bars[k].mfo <= trail[j].lastMfo)
  {
    Positions(bars, entryMfo, squareoff);
    var i0, last := EntryIndex(bars, entryMfo).value, LastAtOrBefore(bars, squareoff);
    var j := FirstBreak(trail, signalBk, bars[last].mfo, 0);
    if j < |trail| && i0 < last {
      var k := FirstAfter(bars, trail[j].lastMfo, i0 + 1, last + 1);
      assert k <= last;
    }
  }

  /** What an exit is read from: for a next-open fill, only the open of its bar. */
  predicate AgreeToExit(a: seq<Bar>, b: seq<Bar>, f: Fill) {
    if f.reason == TrailNextOpen then AgreeToOpen(a, b, f.exitMfo) else AgreeThrough(a, b, f.exitMfo)
  }

  /** Every bar of trail a over before minute m, with all before it, is also b's. */
  predicate TrailWithin(a: seq<Trail>, b: seq<Trail>, m: int) {
    forall j | 0 <= j < |a| && a[j].lastMfo < m :: j < |b| && a[..j + 1] == b[..j + 1]
  }

  /** The two trails are the same as far as they are over before minute m. */
  predicate SameTrail(a: seq<Trail>, b: seq<Trail>, m: int) {
    TrailWithin(a, b, m) && TrailWithin(b, a, m)
  }

  lemma {:induction false} BreakWithin(a: seq<Trail>, b: seq<Trail>, signalBk: int, lastMinute: int, m: int)
    requires TrailWithin(a, b, m)
    requires var j := FirstBreak(a, signalBk, lastMinute, 0); j < |a| && a[j].lastMfo < m
    ensures var j := FirstBreak(a, signalBk, lastMinute, 0);
            FirstBreak(b, signalBk, lastMinute, 0) == j < |b| && a[j] == b[j]
  {
    var j := FirstBreak(a, signalBk, lastMinute, 0);
    assert forall x | 0 <= x <= j :: a[x] == a[..j + 1][x] && b[x] == b[..j + 1][x];
  }

  lemma {:induction false} E2FromNonAnticipating(
    a: seq<Bar>, b: seq<Bar>, ta: seq<Trail>, tb: seq<Trail>, i0: int, last: int, signalBk: int)
    requires 0 <= i0 <= last < |a| && Ascending(a)
    requires AgreeToExit(a, b, E2From(a, ta, i0, last, signalBk))
    requires SameTrail(ta, tb, E2From(a, ta, i0, last, signalBk).exitMfo)
    ensures E2From(b, tb, i0, last, signalBk) == E2From(a, ta, i0, last, signalBk)
  {
    var m, lastMinute := E2From(a, ta, i0, last, signalBk).exitMfo, a[last].mfo;
    var i, j := FirstBreak(ta, signalBk, lastMinute, 0), FirstBreak(tb, signalBk, lastMinute, 0);
    if i < |ta| {
      BreakWithin(ta, tb, signalBk, lastMinute, m);
      var k := FirstAfter(a, ta[i].lastMfo, i0 + 1, last + 1);
      var k' := FirstAfter(b, ta[i].lastMfo, i0 + 1, last + 1);
      assert k == k';
    } else if j < |tb| {
      BreakWithin(tb, ta, signalBk, lastMinute, m);
    }
    assert a[i0].mfo <= a[last].mfo;
  }

  /** E2 reads nothing after its exit bar, of a next-open fill's bar only the open, and no later trail bar. */
  lemma {:induction false} E2NonAnticipating(
    a: seq<Bar>, b: seq<Bar>, ta: seq<Trail>, tb: seq<Trail>, entryMfo: int, signalBk: int, squareoff: int)
    requires Ascending(a) && E2(a, ta, entryMfo, signalBk, squareoff).Some?
    requires AgreeToExit(a, b, E2(a, ta, entryMfo, signalBk, squareoff).value)
    requires SameTrail(ta, tb, E2(a, ta, entryMfo, signalBk, squareoff).value.exitMfo)
    ensures E2(b, tb, entryMfo, signalBk, squareoff) == E2(a, ta, entryMfo, signalBk, squareoff)
  {
    hide E2From;
    SamePositions(a, b, entryMfo, squareoff);
    var i0, last := EntryIndex(a, entryMfo).value, LastAtOrBefore(a, squareoff);
    E2FromNonAnticipating(a, b, ta, tb, i0, last, signalBk);
    EntryOpenAgrees(a, b, ta, i0, last, signalBk);
  }

  lemma {:induction false} EntryOpenAgrees(
    a: seq<Bar>, b: seq<Bar>, ta: seq<Trail>, i0: int, last: int, signalBk: int)
    requires 0 <= i0 <= last < |a| && Ascending(a)
    requires AgreeToExit(a, b, E2From(a, ta, i0, last, signalBk))
    ensures a[i0].o == b[i0].o
  {
    assert a[i0].mfo <= E2From(a, ta, i0, last, signalBk).exitMfo;
  }
}
