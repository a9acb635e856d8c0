/** `discrete_signals` of scripts/backtest_hi52.py: prefiltered and exhaustive runs, and what the window costs. */
module CrossSignals {
  import opened Common
  import opened FreshCross

  /** `UNADJUSTED_LOOKBACK_DAYS`. */
  const UNADJUSTED_LOOKBACK_DAYS := 400

  predicate Ascending(dates: seq<int>) {
    forall i, j | 0 <= i < j < |dates| :: dates[i] <= dates[j]
  }

  /** `bisect_left`: the first position holding at least x. */
  function BisectLeft(dates: seq<int>, x: int): (j: nat)
    ensures j <= |dates|
    ensures forall i | 0 <= i < j :: dates[i] < x
    ensures j < |dates| ==> dates[j] >= x
  {
    if dates == [] || dates[0] >= x then 0 else BisectLeft(dates[1..], x) + 1
  }

  predicate UnadjustedAt(structural: seq<int>, today: int) {
    var j := BisectLeft(structural, today - UNADJUSTED_LOOKBACK_DAYS);
    j < |structural| && structural[j] < today
  }

  /** Over ascending ex-dates, the one look finds whether any falls in [today - 400, today - 1]. */
  lemma {:induction false} UnadjustedIff(structural: seq<int>, today: int)
    requires Ascending(structural)
    ensures UnadjustedAt(structural, today)
         == exists i :: 0 <= i < |structural| && today - UNADJUSTED_LOOKBACK_DAYS <= structural[i] <= today - 1
  {
    var j := BisectLeft(structural, today - UNADJUSTED_LOOKBACK_DAYS);
    if j < |structural| {
      assert forall i | j < i < |structural| :: structural[j] <= structural[i];
    }
  }

  // ---------------------------------------------------------------- one decision day

  /** A symbol's history, and the tests `scan_daily` makes after the fresh cross. */
  datatype Study = Study(rows: seq<Row>, params: Params, structural: seq<int>, rest: (seq<Row>, int) -> Option<real>)

  datatype Outcome = Silent | Vetoed | Signal(score: real)

  function ScanDaily(s: Study, rows: seq<Row>, today: int): Option<real> {
    if IsFreshCross(rows, s.params) then s.rest(rows, today) else None
  }

  /** The session on which the order would be placed. */
  function Today(rows: seq<Row>, i: nat): int
    requires i < |rows|
  {
    if i + 1 < |rows| then rows[i + 1].day else rows[i].day
  }

  function OutcomeAt(s: Study, i: nat): Outcome
    requires i < |s.rows|
  {
    var today := Today(s.rows, i);
    match ScanDaily(s, Window(s.rows, i, s.params.lookback), today)
    case None => Silent
    case Some(score) => if UnadjustedAt(s.structural, today) then Vetoed else Signal(score)
  }

  /** A day's outcome, were it offered to the scan. */
  function On(s: Study, i: int): Outcome {
    if 0 <= i < |s.rows| then OutcomeAt(s, i) else Silent
  }

  // ---------------------------------------------------------------- a run over some indices

  /** The signals among some indices, in order. */
  function Signals(s: Study, idxs: seq<int>): seq<(int, real)> {
    if idxs == [] then []
    else
      var i := idxs[|idxs| - 1];
      Signals(s, idxs[..|idxs| - 1]) + match On(s, i) case Signal(score) => [(i, score)] case _ => []
  }

  /** How many of some indices the unadjusted-history veto took. */
  function Vetoes(s: Study, idxs: seq<int>): nat {
    if idxs == [] then 0
    else Vetoes(s, idxs[..|idxs| - 1]) + if On(s, idxs[|idxs| - 1]).Vetoed? then 1 else 0
  }

  /** What one more offered day leaves of the signals and the veto count. */
  predicate DayAdds(s: Study, i: int, out: seq<(int, real)>, vetoes: nat, out': seq<(int, real)>, vetoes': nat) {
    match On(s, i)
    case Silent => out' == out && vetoes' == vetoes
    case Vetoed => out' == out && vetoes' == vetoes + 1
    case Signal(score) => out' == out + [(i, score)] && vetoes' == vetoes
  }

  lemma {:induction false} OneMore(s: Study, idxs: seq<int>, i: int)
    ensures DayAdds(s, i, Signals(s, idxs), Vetoes(s, idxs), Signals(s, idxs + [i]), Vetoes(s, idxs + [i]))
  {
    hide On;
    assert (idxs + [i])[..|idxs|] == idxs;
    assert Signals(s, idxs) + [] == Signals(s, idxs);
  }

  lemma {:induction false} NoneOffered(s: Study)
    ensures Signals(s, []) == [] && Vetoes(s, []) == 0
  {
  }

  /** range(lo, n). */
  function Range(lo: nat, n: nat): seq<int> {
    if n <= lo then [] else Range(lo, n - 1) + [n - 1]
  }

  lemma {:induction false} RangeIff(lo: nat, n: nat, i: int)
    ensures i in Range(lo, n) <==> lo <= i < n
  {
    if n > lo {
      RangeIff(lo, n - 1, i);
    }
  }

  function Offered(s: Study, exhaustive: bool): seq<int>
    requires s.params.minSessions >= 1
  {
    if exhaustive then Range(s.params.minSessions - 1, |s.rows|) else Prefiltered(s.rows, s.params)
  }

  lemma {:induction false} OfferedInRange(s: Study, exhaustive: bool, i: int)
    requires s.params.minSessions >= 1 && i in Offered(s, exhaustive)
    ensures 0 <= i < |s.rows|
  {
    hide IsCandidate, CandidatesBelow, Range;
    if exhaustive {
      RangeIff(s.params.minSessions - 1, |s.rows|, i);
    } else {
      assert Scannable(s.rows, s.params);
      CandidateIff(s.rows, s.params, |s.rows|, i);
    }
  }

  /** One offered day: scanned over its window, and vetoed on an unadjusted history. */
  method OfferDay(s: Study, i: nat, out: seq<(int, real)>, vetoes: nat)
    returns (out': seq<(int, real)>, vetoes': nat)
    requires i < |s.rows|
    ensures DayAdds(s, i, out, vetoes, out', vetoes')
  {
    hide IsFreshCross, UnadjustedAt, Window;
    var today := Today(s.rows, i);
    var score := ScanDaily(s, Window(s.rows, i, s.params.lookback), today);
    if score.None? {
      return out, vetoes;
    }
    if UnadjustedAt(s.structural, today) {
      return out, vetoes + 1;
    }
    return out + [(i, score.value)], vetoes;
  }

  lemma {:induction false} SameAddition(
    s: Study, i: int, out: seq<(int, real)>, vetoes: nat,
    a: seq<(int, real)>, m: nat, b: seq<(int, real)>, n: nat)
    requires DayAdds(s, i, out, vetoes, a, m) && DayAdds(s, i, out, vetoes, b, n)
    ensures a == b && m == n
  {
    hide On;
  }

  method DiscreteSignals(s: Study, exhaustive: bool) returns (out: seq<(int, real)>, vetoes: nat)
    requires s.params.minSessions >= 1
    ensures out == Signals(s, Offered(s, exhaustive))
    ensures vetoes == Vetoes(s, Offered(s, exhaustive))
  {
    hide Signals, Vetoes, DayAdds, Range, Prefiltered;
    var idxs: seq<int>;
    if exhaustive {
      idxs := Range(s.params.minSessions - 1, |s.rows|);
    } else {
      idxs := PrefilterCrossIndices(s.rows, s.params);
    }
    assert idxs == Offered(s, exhaustive);
    out, vetoes := [], 0;
    NoneOffered(s);
    for k := 0 to |idxs|
      invariant out == Signals(s, idxs[..k]) && vetoes == Vetoes(s, idxs[..k])
    {
      var i := idxs[k];
      OfferedInRange(s, exhaustive, i);
      OneMore(s, idxs[..k], i);
      var out', vetoes' := OfferDay(s, i, out, vetoes);
      SameAddition(s, i, out, vetoes, out', vetoes', Signals(s, idxs[..k] + [i]), Vetoes(s, idxs[..k] + [i]));
      assert idxs[..k + 1] == idxs[..k] + [i];
      out, vetoes := out', vetoes';
    }
    assert idxs[..|idxs|] == idxs;
  }

  // ---------------------------------------------------------------- the prefilter makes no difference

  /** Two index lists with the same signals and as many vetoes. */
  predicate SameRun(s: Study, some: seq<int>, all: seq<int>) {
    Signals(s, some) == Signals(s, all) && Vetoes(s, some) == Vetoes(s, all)
  }

  lemma {:induction false} OfferedOrSilent(s: Study, some: seq<int>, all: seq<int>, i: int, offered: bool)
    requires SameRun(s, some, all) && (offered || On(s, i) == Silent)
    ensures SameRun(s, if offered then some + [i] else some, all + [i])
  {
    hide Signals, Vetoes, On;
    OneMore(s, all, i);
    OneMore(s, some, i);
  }

  predicate CouldCross(rows: seq<Row>, p: Params, i: nat)
    requires i < |rows|
  {
    Scannable(rows, p) && i >= p.minSessions - 1 && IsCandidate(rows, p, i)
  }

  lemma {:induction false} SilentUnlessCandidate(s: Study, i: nat)
    requires UsualPrices(s.rows, s.params) && i < |s.rows|
    ensures CouldCross(s.rows, s.params, i) || On(s, i) == Silent
  {
    hide IsFreshCross, IsCandidate, Window, UsualPrices;
    if IsFreshCross(Window(s.rows, i, s.params.lookback), s.params) {
      FreshCrossIsCandidate(s.rows, s.params, i);
    }
  }

  lemma {:induction false} CandidatesStep(rows: seq<Row>, p: Params, n: nat)
    requires Scannable(rows, p) && p.minSessions <= n <= |rows|
    ensures CandidatesBelow(rows, p, n) ==
            if IsCandidate(rows, p, n - 1) then CandidatesBelow(rows, p, n - 1) + [n - 1]
            else CandidatesBelow(rows, p, n - 1)
  {
    hide IsCandidate;
    assert CandidatesBelow(rows, p, n - 1) + [] == CandidatesBelow(rows, p, n - 1);
  }

  lemma {:induction false} NothingYet(s: Study, n: nat)
    requires Scannable(s.rows, s.params) && n < s.params.minSessions && n <= |s.rows|
    ensures CandidatesBelow(s.rows, s.params, n) == [] == Range(s.params.minSessions - 1, n)
  {
    hide IsCandidate;
  }

  /** Leaving out the days the prefilter drops changes neither the signals nor the veto count. */
  lemma {:induction false} SilentDaysDropOut(s: Study, n: nat)
    requires UsualPrices(s.rows, s.params) && Scannable(s.rows, s.params) && n <= |s.rows|
    ensures SameRun(s, CandidatesBelow(s.rows, s.params, n), Range(s.params.minSessions - 1, n))
  {
    hide SameRun, On, IsCandidate, CandidatesBelow, UsualPrices;
    var lo := s.params.minSessions - 1;
    if n <= lo {
      NothingYet(s, n);
      assert SameRun(s, [], []) by { SameAsItself(s, []); }
    } else {
      var some, all := CandidatesBelow(s.rows, s.params, n - 1), Range(lo, n - 1);
      SilentDaysDropOut(s, n - 1);
      SilentUnlessCandidate(s, n - 1);
      CandidatesStep(s.rows, s.params, n);
      OfferedOrSilent(s, some, all, n - 1, IsCandidate(s.rows, s.params, n - 1));
    }
  }

  lemma {:induction false} SameAsItself(s: Study, idxs: seq<int>)
    ensures SameRun(s, idxs, idxs)
  {
  }

  lemma {:induction false} NothingToFind(s: Study, n: nat)
    requires UsualPrices(s.rows, s.params) && !Scannable(s.rows, s.params)
    requires s.params.minSessions >= 1 && n <= |s.rows|
    ensures SameRun(s, [], Range(s.params.minSessions - 1, n))
  {
    hide SameRun, On, IsCandidate, UsualPrices;
    var lo := s.params.minSessions - 1;
    if n <= lo {
      SameAsItself(s, []);
    } else {
      NothingToFind(s, n - 1);
      SilentUnlessCandidate(s, n - 1);
      OfferedOrSilent(s, [], Range(lo, n - 1), n - 1, false);
    }
  }

  /** Signals and vetoes are the same prefiltered and exhaustive, so --verify-prefilter never disagrees. */
  lemma {:induction false} PrefilterDropsNothing(s: Study)
    requires s.params.minSessions >= 1 && UsualPrices(s.rows, s.params)
    ensures Signals(s, Offered(s, false)) == Signals(s, Offered(s, true))
    ensures Vetoes(s, Offered(s, false)) == Vetoes(s, Offered(s, true))
  {
    hide Signals, Vetoes, CandidatesBelow, Range, UsualPrices;
    if Scannable(s.rows, s.params) {
      SilentDaysDropOut(s, |s.rows|);
    } else {
      NothingToFind(s, |s.rows|);
    }
  }

  // ---------------------------------------------------------------- the handed window against the full prefix

  /**
   The oldest row of the previous session's own window, which the handed window has dropped: its high
   alone keeps the previous close below the band, the highs of the rows still held would not.
   */
  predicate DroppedRowDecides(rows: seq<Row>, p: Params, i: nat)
    requires 2 <= p.lookback && i < |rows|
  {
    && i >= p.lookback
    && (var close, dropped, held := rows[i - 1].close, rows[i - p.lookback].high, MaxHigh(rows[i + 1 - p.lookback..i]);
        && dropped > 0.0 && close < p.pmin * dropped
        && (held <= 0.0 || close >= p.pmin * held))
  }

  lemma {:induction false} RatioBelow(close: real, hi: real, pmin: real)
    requires hi > 0.0
    ensures close / hi < pmin <==> close < pmin * hi
  {
    var x := close / hi;
    assert x * hi == close;
    if x < pmin {
      assert (pmin - x) * hi > 0.0;
    } else {
      assert (x - pmin) * hi >= 0.0;
    }
  }

  lemma {:induction false} Scaled(pmin: real, x: real, y: real)
    requires pmin >= 0.0 && x <= y
    ensures pmin * x <= pmin * y
  {
    assert pmin * (y - x) >= 0.0;
  }

  /** A further high that turns the ratio from clear of the band to below it does so by itself. */
  lemma {:induction false} FurtherHighIff(close: real, held: real, dropped: real, pmin: real)
    requires pmin >= 0.0 || close >= 0.0
    ensures var all := MaxReal(held, dropped);
            (all > 0.0 && close / all < pmin && (held <= 0.0 || close / held >= pmin))
            == (dropped > 0.0 && close < pmin * dropped && (held <= 0.0 || close >= pmin * held))
  {
    var all := MaxReal(held, dropped);
    if all > 0.0 {
      RatioBelow(close, all, pmin);
    }
    if held > 0.0 {
      RatioBelow(close, held, pmin);
      if pmin >= 0.0 && dropped <= held {
        Scaled(pmin, dropped, held);
      }
    }
    if pmin < 0.0 && dropped > 0.0 {
      assert pmin * dropped < 0.0;
    }
  }

  lemma {:induction false} PrefixProximities(rows: seq<Row>, i: nat, lookback: int)
    requires 1 <= i < |rows| && lookback >= 1
    ensures Proximity(rows[..i + 1], lookback) == RollingProximity(rows, lookback, i)
    ensures Proximity(rows[..i], lookback) == Ratio(rows[Max(0, i - lookback)..i])
  {
    assert Trailing(rows[..i + 1], lookback) == rows[Max(0, i + 1 - lookback)..i + 1];
    assert Trailing(rows[..i], lookback) == rows[Max(0, i - lookback)..i];
  }

  /** The previous session is below the band over its own window, but not over the handed one. */
  predicate OnlyOwnWindowBelow(rows: seq<Row>, p: Params, i: nat)
    requires 2 <= p.lookback && 1 <= i < |rows|
  {
    var held, own := Ratio(rows[Max(0, i + 1 - p.lookback)..i]), Ratio(rows[Max(0, i - p.lookback)..i]);
    (held.None? || held.value >= p.pmin) && own.Some? && own.value < p.pmin
  }

  lemma {:induction false} HighWithOldest(rows: seq<Row>, a: nat, e: nat)
    requires a + 1 < e <= |rows|
    ensures MaxHigh(rows[a..e]) == MaxReal(MaxHigh(rows[a + 1..e]), rows[a].high)
  {
    assert rows[a..e][1..] == rows[a + 1..e];
  }

  lemma {:induction false} OnlyOwnWindowIff(rows: seq<Row>, p: Params, i: nat)
    requires 2 <= p.lookback && 1 <= i < |rows| && UsualPrices(rows, p)
    ensures OnlyOwnWindowBelow(rows, p, i) <==> DroppedRowDecides(rows, p, i)
  {
    hide MaxHigh;
    if i >= p.lookback {
      HighWithOldest(rows, i - p.lookback, i);
      assert rows[i - 1] in rows;
      FurtherHighIff(rows[i - 1].close, MaxHigh(rows[i + 1 - p.lookback..i]), rows[i - p.lookback].high, p.pmin);
    }
  }

  /**
   Handing `scan_daily` the trailing window instead of the whole prefix gives the same fresh-cross
   answer except exactly where the current session clears the band and the high of the one dropped
   row decides that the previous one did not.
   */
  lemma {:induction false} WindowIsPrefixIff(rows: seq<Row>, p: Params, i: nat)
    requires 2 <= p.minSessions <= p.lookback && UsualPrices(rows, p) && 1 <= i < |rows|
    ensures var (w, all) := (IsFreshCross(Window(rows, i, p.lookback), p), IsFreshCross(rows[..i + 1], p));
            && (w ==> all)
            && (w != all <==> DroppedRowDecides(rows, p, i)
                              && RollingProximity(rows, p.lookback, i).Some?
                              && RollingProximity(rows, p.lookback, i).value >= p.pmin)
  {
    hide Ratio, Window, Proximity, RollingProximity, DroppedRowDecides;
    WindowProximities(rows, i, p.lookback);
    PrefixProximities(rows, i, p.lookback);
    OnlyOwnWindowIff(rows, p, i);
    assert rows[..i + 1][..i] == rows[..i];
    var a, b := Max(0, i - p.lookback), Max(0, i + 1 - p.lookback);
    if Ratio(rows[b..i]).Some? && Ratio(rows[b..i]).value < p.pmin {
      PreviousIsLower(rows, a, b, i, p.pmin);
    }
  }

  /** One far higher high, then sessions that close on their highs. */
  function AfterSpike(lookback: nat, pmin: real): (rows: seq<Row>)
    requires 0.0 < pmin
    ensures |rows| == lookback + 1 && rows[0] == Row(0, 1.0, 1.0 + 1.0 / pmin, 1.0)
    ensures forall i | 1 <= i <= lookback :: rows[i] == Row(i, 1.0, 1.0, 1.0)
  {
    [Row(0, 1.0, 1.0 + 1.0 / pmin, 1.0)] + seq(lookback, i requires 0 <= i < lookback => Row(i + 1, 1.0, 1.0, 1.0))
  }

  lemma {:induction false} FlatHigh(rows: seq<Row>)
    requires rows != [] && forall i | 0 <= i < |rows| :: rows[i].high == 1.0
    ensures MaxHigh(rows) == 1.0
  {
    MaxHighIs(rows);
  }

  lemma {:induction false} SpikeDecides(p: Params)
    requires 2 <= p.lookback && 0.0 < p.pmin < 1.0
    ensures var rows := AfterSpike(p.lookback, p.pmin);
            && DroppedRowDecides(rows, p, p.lookback)
            && RollingProximity(rows, p.lookback, p.lookback) == Some(1.0)
  {
    hide MaxHigh;
    var n := p.lookback;
    var rows := AfterSpike(n, p.pmin);
    FlatHigh(rows[1..n + 1]);
    FlatHigh(rows[1..n]);
    assert p.pmin * (1.0 + 1.0 / p.pmin) == p.pmin + 1.0;
  }

  lemma {:induction false} SpikePrices(lookback: nat, pmin: real)
    requires 0.0 < pmin
    ensures forall r | r in AfterSpike(lookback, pmin) :: 0.0 < r.close <= r.high
  {
    var rows := AfterSpike(lookback, pmin);
    forall r | r in rows ensures 0.0 < r.close <= r.high {
      var i :| 0 <= i <= lookback && rows[i] == r;
    }
  }

  /** For all parameters there is a history of lookback + 1 sessions whose fresh cross the window hides. */
  lemma {:induction false} WindowHidesACross(p: Params)
    requires 2 <= p.minSessions <= p.lookback && 0.0 < p.pmin < 1.0
    ensures exists rows: seq<Row> ::
              && |rows| == p.lookback + 1 && (forall r | r in rows :: 0.0 < r.close <= r.high)
              && IsFreshCross(rows, p) && !IsFreshCross(Window(rows, p.lookback, p.lookback), p)
  {
    hide IsFreshCross, DroppedRowDecides, RollingProximity, Window;
    var rows := AfterSpike(p.lookback, p.pmin);
    SpikeDecides(p);
    SpikePrices(p.lookback, p.pmin);
    WindowIsPrefixIff(rows, p, p.lookback);
    assert rows[..p.lookback + 1] == rows;
  }
}
