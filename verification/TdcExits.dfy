/** The long exit of scripts/backtest_tdc.py, `simulate_exit`. */
module TdcExits {
  import opened Common
  import opened Tape

  datatype Reason = VwapLossNextOpen | Squareoff

  datatype Exit = Exit(entryPx: real, exitPx: real, exitMfo: int, reason: Reason)

  /** The close below which the position is given up; None for the variant without a stop. */
  function Threshold(vwapT: real, stopPct: Option<real>): Option<real> {
    if stopPct.None? then None else Some(vwapT * (1.0 - stopPct.value / 100.0))
  }

  predicate Loses(b: Bar, threshold: Option<real>) {
    threshold.Some? && b.c < threshold.value
  }

  /** The first bar of [lo, last) that closes below the threshold, or last. */
  function FirstLoss(bars: seq<Bar>, threshold: Option<real>, lo: int, last: int): (k: int)
    requires 0 <= lo <= last < |bars|
    ensures lo <= k <= last
    ensures forall j | lo <= j < k :: !Loses(bars[j], threshold)
    ensures k < last ==> Loses(bars[k], threshold)
    decreases last - lo
  {
    if lo == last || Loses(bars[lo], threshold) then lo else FirstLoss(bars, threshold, lo + 1, last)
  }

  function LongFrom(bars: seq<Bar>, i0: int, last: int, threshold: Option<real>): Exit
    requires 0 <= i0 <= last < |bars|
  {
    var k := FirstLoss(bars, threshold, i0, last);
    if k < last then Exit(bars[i0].o, bars[k + 1].o, bars[k + 1].mfo, VwapLossNextOpen)
    else Exit(bars[i0].o, bars[last].c, bars[last].mfo, Squareoff)
  }

  function Long(bars: seq<Bar>, vwapT: real, stopPct: Option<real>, entryMfo: int, squareoff: int): Option<Exit> {
    var i0 := EntryIndex(bars, entryMfo);
    var last := LastAtOrBefore(bars, squareoff);
    if i0.None? || last < i0.value || bars[i0.value].o <= 0.0 then None
    else Some(LongFrom(bars, i0.value, last, Threshold(vwapT, stopPct)))
  }

  method SimulateExit(bars: seq<Bar>, vwapT: real, stopPct: Option<real>, entryMfo: int, squareoff: int)
    returns (r: Option<Exit>)
    ensures r == Long(bars, vwapT, stopPct, entryMfo, squareoff)
  {
    var i0 := EntryIndex(bars, entryMfo);
    if i0.None? {
      return None;
    }
    var last := |bars| - 1;
    while last >= 0 && bars[last].mfo > squareoff
      invariant -1 <= last < |bars|
      invariant forall j | last < j < |bars| :: bars[j].mfo > squareoff
    {
      last := last - 1;
    }
    LastUnique(bars, squareoff, last);
    if last < i0.value {
      return None;
    }
    var entryPx := bars[i0.value].o;
    if entryPx <= 0.0 {
      return None;
    }
    if stopPct.Some? {
      var threshold := vwapT * (1.0 - stopPct.value / 100.0);
      var k := i0.value;
      while k < last
        invariant i0.value <= k <= last
        invariant forall j | i0.value <= j < k :: !Loses(bars[j], Some(threshold))
      {
        if bars[k].c < threshold {
          return Some(Exit(entryPx, bars[k + 1].o, bars[k + 1].mfo, VwapLossNextOpen));
        }
        k := k + 1;
      }
    }
    return Some(Exit(entryPx, bars[last].c, bars[last].mfo, Squareoff));
  }

  predicate AgreeToExit(a: seq<Bar>, b: seq<Bar>, x: Exit) {
    if x.reason == VwapLossNextOpen then AgreeToOpen(a, b, x.exitMfo) else AgreeThrough(a, b, x.exitMfo)
  }

  lemma {:induction false} LongFromNonAnticipating(
      a: seq<Bar>, b: seq<Bar>, i0: int, last: int, threshold: Option<real>)
    requires Ascending(a) && 0 <= i0 <= last < |a|
    requires AgreeToExit(a, b, LongFrom(a, i0, last, threshold))
    ensures a[i0].o == b[i0].o
    ensures LongFrom(b, i0, last, threshold) == LongFrom(a, i0, last, threshold)
  {
    var k, k' := FirstLoss(a, threshold, i0, last), FirstLoss(b, threshold, i0, last);
    assert k < last ==> a[k].mfo < a[k + 1].mfo;
    forall j | 0 <= j <= k ensures a[j] == b[j] {
      assert a[j].mfo <= a[k].mfo;
    }
    assert k == k';
  }

  /** A long reads nothing after its exit, and of a next-open fill's bar only the open. */
  lemma {:induction false} LongNonAnticipating(
      a: seq<Bar>, b: seq<Bar>, vwapT: real, stopPct: Option<real>, entryMfo: int, squareoff: int)
    requires Ascending(a) && Long(a, vwapT, stopPct, entryMfo, squareoff).Some?
    requires AgreeToExit(a, b, Long(a, vwapT, stopPct, entryMfo, squareoff).value)
    ensures Long(b, vwapT, stopPct, entryMfo, squareoff) == Long(a, vwapT, stopPct, entryMfo, squareoff)
  {
    SamePositions(a, b, entryMfo, squareoff);
    var i0, last := EntryIndex(a, entryMfo).value, LastAtOrBefore(a, squareoff);
    LongFromNonAnticipating(a, b, i0, last, Threshold(vwapT, stopPct));
  }

  /**
   The exit is at the bar right after the first bar from entry on, before the squareoff bar, that
   closes below the threshold, and otherwise at the squareoff bar's close.
   */
  lemma {:induction false} LongExit(
      bars: seq<Bar>, vwapT: real, stopPct: Option<real>, entryMfo: int, squareoff: int, k: int)
    requires Ascending(bars) && Long(bars, vwapT, stopPct, entryMfo, squareoff).Some?
    requires EntryIndex(bars, entryMfo).value <= k < LastAtOrBefore(bars, squareoff)
    ensures var x := Long(bars, vwapT, stopPct, entryMfo, squareoff).value;
            var threshold := Threshold(vwapT, stopPct);
            && (bars[k + 1].mfo < x.exitMfo ==> !Loses(bars[k], threshold))
            && (bars[k + 1].mfo == x.exitMfo && x.reason == VwapLossNextOpen ==>
                  Loses(bars[k], threshold) && x.exitPx == bars[k + 1].o)
            && (x.reason == Squareoff ==>
                  !Loses(bars[k], threshold) && x.exitMfo == bars[LastAtOrBefore(bars, squareoff)].mfo)
  {
    var i0, last := EntryIndex(bars, entryMfo).value, LastAtOrBefore(bars, squareoff);
    var x := FirstLoss(bars, Threshold(vwapT, stopPct), i0, last);
    assert k < last ==> bars[k].mfo < bars[k + 1].mfo;
    if x < k {
      assert bars[x + 1].mfo <= bars[k].mfo;
    } else if k < x < last {
      assert bars[k + 1].mfo < bars[x + 1].mfo;
    }
  }
}
