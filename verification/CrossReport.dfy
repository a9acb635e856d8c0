/**
 What `discrete_signals` of scripts/backtest_hi52.py reports, session by session: which sessions are signals,
 which are vetoed, and on what day and history each is decided.
 */
module CrossReport {
  import opened Common
  import opened FreshCross
  import opened CrossSignals

  /** h is the highest high of the sessions lo, lo + 1, .., hi - 1. */
  predicate Highest(rows: seq<Row>, lo: nat, hi: nat, h: real)
    requires lo <= hi <= |rows|
  {
    (exists j :: lo <= j < hi && rows[j].high == h) && forall j | lo <= j < hi :: rows[j].high <= h
  }

  /** The first session of the window handed for session i. */
  function Since(i: nat, lookback: nat): nat {
    if i + 1 < lookback then 0 else i + 1 - lookback
  }

  /** The session's close clears the band of a positive high. */
  predicate Clears(close: real, h: real, pmin: real) {
    h > 0.0 && close >= pmin * h
  }

  predicate Misses(close: real, h: real, pmin: real) {
    h > 0.0 && close < pmin * h
  }

  /**
   Session i is a fresh cross: its window is long enough, its close clears the band of the window's highest
   high, and the close before missed the band of the highest high before it.
   */
  ghost predicate FreshAt(rows: seq<Row>, p: Params, i: nat)
    requires i < |rows| && p.lookback >= 1
  {
    var lo := Since(i, p.lookback);
    && 2 <= p.minSessions <= i + 1 - lo && lo < i
    && (exists h :: Highest(rows, lo, i + 1, h) && Clears(rows[i].close, h, p.pmin))
    && (exists h :: Highest(rows, lo, i, h) && Misses(rows[i - 1].close, h, p.pmin))
  }

  lemma {:induction false} HighestIff(rows: seq<Row>, lo: nat, hi: nat, h: real)
    requires lo < hi <= |rows|
    ensures Highest(rows, lo, hi, h) <==> h == MaxHigh(rows[lo..hi])
  {
    var w := rows[lo..hi];
    MaxHighIs(w);
    var x :| 0 <= x < |w| && w[x].high == MaxHigh(w);
    assert rows[lo + x].high == MaxHigh(w);
    forall j | lo <= j < hi ensures rows[j].high <= MaxHigh(w) {
      assert rows[j] == w[j - lo];
    }
  }

  lemma {:induction false} ClearsIff(rows: seq<Row>, lo: nat, hi: nat, pmin: real)
    requires lo < hi <= |rows|
    ensures Ratio(rows[lo..hi]).Some? && Ratio(rows[lo..hi]).value >= pmin <==>
            exists h :: Highest(rows, lo, hi, h) && Clears(rows[hi - 1].close, h, pmin)
    ensures Ratio(rows[lo..hi]).Some? && Ratio(rows[lo..hi]).value < pmin <==>
            exists h :: Highest(rows, lo, hi, h) && Misses(rows[hi - 1].close, h, pmin)
  {
    hide Highest, MaxHigh;
    var h := MaxHigh(rows[lo..hi]);
    HighestIff(rows, lo, hi, h);
    forall x | Highest(rows, lo, hi, x) ensures x == h {
      HighestIff(rows, lo, hi, x);
    }
    if h > 0.0 {
      RatioBelow(rows[hi - 1].close, h, pmin);
    }
  }

  lemma {:induction false} FreshIff(rows: seq<Row>, p: Params, i: nat)
    requires i < |rows| && p.lookback >= 1
    ensures IsFreshCross(Window(rows, i, p.lookback), p) <==> FreshAt(rows, p, i)
  {
    hide Ratio, Window, Proximity, RollingProximity, Highest, Clears, Misses;
    var lo := Since(i, p.lookback);
    WindowProximities(rows, i, p.lookback);
    assert RollingProximity(rows, p.lookback, i) == Ratio(rows[lo..i + 1]) by {
      RollingIs(rows, p.lookback, i);
    }
    ClearsIff(rows, lo, i + 1, p.pmin);
    if lo < i {
      ClearsIff(rows, lo, i, p.pmin);
    }
  }

  lemma {:induction false} RollingIs(rows: seq<Row>, lookback: int, i: nat)
    requires i < |rows| && lookback >= 1
    ensures RollingProximity(rows, lookback, i) == Ratio(rows[Since(i, lookback)..i + 1])
  {
  }

  /** The session's close clears the band of the highest high of the lookback sessions ending there. */
  ghost predicate InBand(rows: seq<Row>, p: Params, i: nat)
    requires i < |rows| && p.lookback >= 1
  {
    exists h :: Highest(rows, Since(i, p.lookback), i + 1, h) && Clears(rows[i].close, h, p.pmin)
  }

  /**
   The prefilter offers a session exactly when its close clears the band and the close before did not.
   */
  lemma {:induction false} OfferedIff(rows: seq<Row>, p: Params, i: nat)
    requires Scannable(rows, p) && i < |rows|
    ensures i in Prefiltered(rows, p) <==>
            p.minSessions - 1 <= i && InBand(rows, p, i) && !InBand(rows, p, i - 1)
  {
    hide Ratio, RollingProximity, Highest, Clears;
    CandidateIff(rows, p, |rows|, i);
    if i >= 1 {
      RollingIs(rows, p.lookback, i);
      RollingIs(rows, p.lookback, i - 1);
      ClearsIff(rows, Since(i, p.lookback), i + 1, p.pmin);
      ClearsIff(rows, Since(i - 1, p.lookback), i, p.pmin);
    }
  }

  // ---------------------------------------------------------------- one session

  /** The next session's day, or its own on the last one. */
  function DecisionDay(rows: seq<Row>, i: nat): int
    requires i < |rows|
  {
    if i == |rows| - 1 then rows[i].day else rows[i + 1].day
  }

  /** The session is a fresh cross, and the scan scores its window on the decision day. */
  ghost predicate Scores(s: Study, i: nat, score: real)
    requires i < |s.rows|
  {
    && s.params.lookback >= 1 && FreshAt(s.rows, s.params, i)
    && s.rest(s.rows[Since(i, s.params.lookback)..i + 1], DecisionDay(s.rows, i)) == Some(score)
  }

  /** Some rescaling ex-date falls in the 400 days before the day. */
  predicate Rescaled(structural: seq<int>, day: int) {
    exists x :: x in structural && day - 400 <= x <= day - 1
  }

  lemma {:induction false} RescaledIff(structural: seq<int>, day: int)
    requires Ascending(structural)
    ensures UnadjustedAt(structural, day) <==> Rescaled(structural, day)
  {
    UnadjustedIff(structural, day);
    if i :| 0 <= i < |structural| && day - UNADJUSTED_LOOKBACK_DAYS <= structural[i] <= day - 1 {
      assert structural[i] in structural;
    }
    if x :| x in structural && day - 400 <= x <= day - 1 {
      var i :| 0 <= i < |structural| && structural[i] == x;
    }
  }

  lemma {:induction false} OnIff(s: Study, i: nat, score: real)
    requires i < |s.rows| && Ascending(s.structural)
    ensures On(s, i) == Signal(score) <==> Scores(s, i, score) && !Rescaled(s.structural, DecisionDay(s.rows, i))
    ensures On(s, i) == Vetoed <==>
            (exists x :: Scores(s, i, x)) && Rescaled(s.structural, DecisionDay(s.rows, i))
  {
    hide IsFreshCross, FreshAt, UnadjustedAt, Rescaled;
    var today := DecisionDay(s.rows, i);
    RescaledIff(s.structural, today);
    if s.params.lookback >= 1 {
      FreshIff(s.rows, s.params, i);
      assert Window(s.rows, i, s.params.lookback) == s.rows[Since(i, s.params.lookback)..i + 1];
      var r := s.rest(s.rows[Since(i, s.params.lookback)..i + 1], today);
      assert r.Some? && FreshAt(s.rows, s.params, i) ==> Scores(s, i, r.value);
    } else {
      NeverFresh(Window(s.rows, i, s.params.lookback), s.params);
    }
  }

  lemma {:induction false} NeverFresh(w: seq<Row>, p: Params)
    requires p.lookback < 1
    ensures !IsFreshCross(w, p)
  {
  }

  // ---------------------------------------------------------------- the run

  lemma {:induction false} SignalsIff(s: Study, lo: nat, n: nat, i: int, score: real)
    ensures (i, score) in Signals(s, Range(lo, n)) <==> lo <= i < n && On(s, i) == Signal(score)
  {
    hide On;
    if lo < n {
      SignalsIff(s, lo, n - 1, i, score);
    }
  }

  lemma {:induction false} SignalsAscend(s: Study, lo: nat, n: nat)
    ensures forall a, b | 0 <= a < b < |Signals(s, Range(lo, n))| ::
              Signals(s, Range(lo, n))[a].0 < Signals(s, Range(lo, n))[b].0
  {
    hide On;
    if lo < n {
      SignalsAscend(s, lo, n - 1);
      var front := Signals(s, Range(lo, n - 1));
      forall a | 0 <= a < |front| ensures front[a].0 < n - 1 {
        assert front[a] == (front[a].0, front[a].1) && front[a] in front;
        SignalsIff(s, lo, n - 1, front[a].0, front[a].1);
      }
    }
  }

  /** The sessions lo, .., n - 1 the veto takes. */
  function VetoedDays(s: Study, lo: nat, n: nat): set<int> {
    set i | lo <= i < n && On(s, i) == Vetoed
  }

  lemma {:induction false} VetoesCount(s: Study, lo: nat, n: nat)
    ensures Vetoes(s, Range(lo, n)) == |VetoedDays(s, lo, n)|
  {
    hide On;
    if lo < n {
      VetoesCount(s, lo, n - 1);
      if On(s, n - 1) == Vetoed {
        assert VetoedDays(s, lo, n) == VetoedDays(s, lo, n - 1) + {n - 1};
      } else {
        assert VetoedDays(s, lo, n) == VetoedDays(s, lo, n - 1);
      }
    } else {
      assert VetoedDays(s, lo, n) == {};
    }
  }

  /** The session is reported as a signal of that score: it scores, and its history is in one unit. */
  ghost predicate Reported(s: Study, i: int, score: real) {
    && s.params.minSessions - 1 <= i < |s.rows| && 0 <= i
    && Scores(s, i, score) && !Rescaled(s.structural, DecisionDay(s.rows, i))
  }

  /** The session scores, but on a history in two units. */
  ghost predicate Refused(s: Study, i: int) {
    && s.params.minSessions - 1 <= i < |s.rows| && 0 <= i
    && (exists x :: Scores(s, i, x)) && Rescaled(s.structural, DecisionDay(s.rows, i))
  }

  /**
   Prefiltered or exhaustive, a run reports exactly the sessions that score on an unrescaled history, in
   order and once each, and counts as vetoed exactly those that score on a rescaled one.
   */
  lemma {:induction false} ReportIs(s: Study, exhaustive: bool, refused: set<int>)
    requires s.params.minSessions >= 1 && Ascending(s.structural)
    requires exhaustive || UsualPrices(s.rows, s.params)
    requires forall i :: i in refused <==> Refused(s, i)
    ensures var out := Signals(s, Offered(s, exhaustive));
            && (forall i, score :: (i, score) in out <==> Reported(s, i, score))
            && (forall a, b | 0 <= a < b < |out| :: out[a].0 < out[b].0)
            && Vetoes(s, Offered(s, exhaustive)) == |refused|
  {
    hide On, UsualPrices, Signals, Vetoes, Scores, Rescaled;
    var lo, n := s.params.minSessions - 1, |s.rows|;
    if !exhaustive {
      PrefilterDropsNothing(s);
    }
    assert Offered(s, true) == Range(lo, n);
    var out := Signals(s, Range(lo, n));
    forall i, score ensures (i, score) in out <==> Reported(s, i, score) {
      SignalsIff(s, lo, n, i, score);
      if 0 <= i < n {
        OnIff(s, i, score);
      }
    }
    SignalsAscend(s, lo, n);
    VetoesCount(s, lo, n);
    forall i ensures i in VetoedDays(s, lo, n) <==> i in refused {
      if 0 <= i < n {
        OnIff(s, i, 0.0);
      }
    }
    assert VetoedDays(s, lo, n) == refused;
  }
}
