/**
 The fresh-cross prefilter of scripts/backtest_hi52.py against the windowed daily scan of
 src/engine/strategy/scanners/hi52.py.
 */
module FreshCross {
  import opened Common

  /** One completed session. */
  datatype Row = Row(day: int, close: real, high: real, volume: real)

  datatype Params = Params(minSessions: int, lookback: int, pmin: real)

  /** The highest high of some sessions. */
  function MaxHigh(rows: seq<Row>): real
    requires rows != []
  {
    if |rows| == 1 then rows[0].high else MaxReal(MaxHigh(rows[1..]), rows[0].high)
  }

  lemma {:induction false} MaxHighIs(rows: seq<Row>)
    requires rows != []
    ensures forall i | 0 <= i < |rows| :: rows[i].high <= MaxHigh(rows)
    ensures exists i :: 0 <= i < |rows| && rows[i].high == MaxHigh(rows)
  {
    if |rows| > 1 {
      MaxHighIs(rows[1..]);
      var i :| 0 <= i < |rows[1..]| && rows[1..][i].high == MaxHigh(rows[1..]);
      assert rows[i + 1].high == MaxHigh(rows[1..]);
      assert forall j | 1 <= j < |rows| :: rows[j] == rows[1..][j - 1];
    }
    assert rows[0].high <= MaxHigh(rows);
  }

  /** Last close over the highest high of the sessions given, when that high is positive. */
  function Ratio(window: seq<Row>): Option<real>
    requires window != []
  {
    var hi := MaxHigh(window);
    if hi <= 0.0 then None else Some(window[|window| - 1].close / hi)
  }

  function Trailing(rows: seq<Row>, lookback: int): seq<Row>
    requires lookback >= 1
  {
    rows[|rows| - Min(lookback, |rows|)..]
  }

  /** `_proximity`: over the trailing min(lookback, len) rows. */
  function Proximity(rows: seq<Row>, lookback: int): Option<real>
    requires lookback >= 1
  {
    if rows == [] then None else Ratio(Trailing(rows, lookback))
  }

  /** The tests of `scan_daily` up to the fresh cross. */
  predicate IsFreshCross(rows: seq<Row>, p: Params) {
    && p.minSessions >= 2 && p.lookback >= 1 && |rows| >= p.minSessions
    && (var live := Proximity(rows, p.lookback); live.Some? && live.value >= p.pmin)
    && (var prev := Proximity(rows[..|rows| - 1], p.lookback); prev.Some? && prev.value < p.pmin)
  }

  // ---------------------------------------------------------------- the prefilter

  /** Entry i of close / rolling max, the max over min(lookback, i + 1) highs ending at i. */
  function RollingProximity(rows: seq<Row>, lookback: int, i: nat): Option<real>
    requires lookback >= 1 && i < |rows|
  {
    Ratio(rows[Max(0, i + 1 - lookback)..i + 1])
  }

  predicate IsCandidate(rows: seq<Row>, p: Params, i: nat)
    requires p.lookback >= 1 && 1 <= i < |rows|
  {
    var cur, prev := RollingProximity(rows, p.lookback, i), RollingProximity(rows, p.lookback, i - 1);
    cur.Some? && cur.value >= p.pmin && (prev.None? || prev.value < p.pmin)
  }

  predicate Scannable(rows: seq<Row>, p: Params) {
    |rows| >= p.minSessions && p.minSessions >= 2 && p.lookback >= 1
  }

  /** The candidate indices below n, ascending. */
  function CandidatesBelow(rows: seq<Row>, p: Params, n: nat): seq<int>
    requires Scannable(rows, p) && n <= |rows|
  {
    if n < p.minSessions then []
    else CandidatesBelow(rows, p, n - 1) + if IsCandidate(rows, p, n - 1) then [n - 1] else []
  }

  function Prefiltered(rows: seq<Row>, p: Params): seq<int> {
    if Scannable(rows, p) then CandidatesBelow(rows, p, |rows|) else []
  }

  lemma {:induction false} CandidateIff(rows: seq<Row>, p: Params, n: nat, i: int)
    requires Scannable(rows, p) && n <= |rows|
    ensures i in CandidatesBelow(rows, p, n) <==> p.minSessions - 1 <= i < n && IsCandidate(rows, p, i)
  {
    hide IsCandidate;
    if n >= p.minSessions {
      CandidateIff(rows, p, n - 1, i);
    }
  }

  method PrefilterCrossIndices(rows: seq<Row>, p: Params) returns (out: seq<int>)
    ensures out == Prefiltered(rows, p)
  {
    out := [];
    if |rows| < p.minSessions || p.minSessions < 2 || p.lookback < 1 {
      return;
    }
    for i := p.minSessions - 1 to |rows|
      invariant out == CandidatesBelow(rows, p, i)
    {
      var cur, prev := RollingProximity(rows, p.lookback, i), RollingProximity(rows, p.lookback, i - 1);
      if cur.Some? && cur.value >= p.pmin && (prev.None? || prev.value < p.pmin) {
        out := out + [i];
      }
    }
  }

  // ---------------------------------------------------------------- the prefilter drops nothing

  /** `_window`: the trailing min(lookback, i + 1) rows ending at i. */
  function Window(rows: seq<Row>, i: nat, lookback: int): seq<Row>
    requires i < |rows|
  {
    rows[Min(Max(0, i + 1 - lookback), i + 1)..i + 1]
  }

  lemma {:induction false} NotPositive(x: real, y: real)
    requires x * y <= 0.0 && y > 0.0
    ensures x <= 0.0
  {}

  lemma {:induction false} RatioOrder(close: real, small: real, large: real, pmin: real)
    requires 0.0 < small <= large && close / small < pmin
    requires pmin >= 0.0 || close >= 0.0
    ensures close / large < pmin
  {
    var a, b := close / small, close / large;
    assert a * small == close == b * large;
    if close >= 0.0 {
      assert b * (large - small) >= 0.0;
      NotPositive(b - a, small);
    }
  }

  lemma {:induction false} WiderWindow(rows: seq<Row>, a: nat, b: nat, e: nat)
    requires a <= b < e <= |rows|
    ensures MaxHigh(rows[b..e]) <= MaxHigh(rows[a..e])
    decreases b - a
  {
    if a < b {
      WiderWindow(rows, a + 1, b, e);
      assert rows[a..e][1..] == rows[a + 1..e];
    }
  }

  /** Dropping the oldest row of the previous session's window can only raise its proximity. */
  lemma {:induction false} PreviousIsLower(rows: seq<Row>, a: nat, b: nat, e: nat, pmin: real)
    requires a <= b < e <= |rows| && (pmin >= 0.0 || rows[e - 1].close >= 0.0)
    requires Ratio(rows[b..e]).Some? && Ratio(rows[b..e]).value < pmin
    ensures Ratio(rows[a..e]).Some? && Ratio(rows[a..e]).value < pmin
  {
    WiderWindow(rows, a, b, e);
    RatioOrder(rows[e - 1].close, MaxHigh(rows[b..e]), MaxHigh(rows[a..e]), pmin);
  }

  /** The handed window's own proximities, current and previous. */
  lemma {:induction false} WindowProximities(rows: seq<Row>, i: nat, lookback: int)
    requires i < |rows| && lookback >= 1
    ensures var (w, a) := (Window(rows, i, lookback), Max(0, i + 1 - lookback));
            && |w| == i + 1 - a
            && Proximity(w, lookback) == RollingProximity(rows, lookback, i)
            && Proximity(w[..|w| - 1], lookback) == if a < i then Ratio(rows[a..i]) else None
  {
    var w, a := Window(rows, i, lookback), Max(0, i + 1 - lookback);
    assert w == rows[a..i + 1] && Trailing(w, lookback) == w;
    var front := w[..|w| - 1];
    assert front == rows[a..i] && Trailing(front, lookback) == front;
  }

  ghost predicate UsualPrices(rows: seq<Row>, p: Params) {
    p.pmin >= 0.0 || forall r | r in rows :: r.close >= 0.0
  }

  /** Every index whose handed window is a fresh cross is a candidate of the prefilter. */
  lemma {:induction false} FreshCrossIsCandidate(rows: seq<Row>, p: Params, i: nat)
    requires UsualPrices(rows, p) && i < |rows| && IsFreshCross(Window(rows, i, p.lookback), p)
    ensures i >= 1 && IsCandidate(rows, p, i) && Scannable(rows, p) && i >= p.minSessions - 1
  {
    hide Ratio, Window, Proximity;
    WindowProximities(rows, i, p.lookback);
    var a := Max(0, i + 1 - p.lookback);
    PreviousIsLower(rows, Max(0, i - p.lookback), a, i, p.pmin);
  }
}
