/**
 The shared signal population of scripts/backtest_brk20.py: admission, the three entry variants'
 fills, and their measurement.
 */
module BreakoutFills {
  import opened Common

  /** One session; a price that is not a finite number is absent. */
  datatype DayBar = DayBar(open: Option<real>, high: Option<real>, low: Option<real>, close: Option<real>)

  datatype Series = Series(symbol: int, dates: seq<int>, bars: seq<DayBar>)

  /** A fresh cross on session `idx`, with the tick-rounded broken level it rests a limit at. */
  datatype Signal = Signal(symbol: int, idx: nat, date: int, level: real)

  datatype Variant = V1NextOpen | V2LimitN3 | V2LimitN5

  const VARIANTS := [V1NextOpen, V2LimitN3, V2LimitN5]
  const MAX_FILL_WINDOW := 5
  const HORIZONS := [5, 10, 20]
  const MAX_HORIZON := 20
  const ADMISSION_SPAN := MAX_FILL_WINDOW + MAX_HORIZON

  /** Sessions a limit rests for; None for the variant that is not a resting limit. */
  function FillWindow(v: Variant): Option<nat> {
    match v
    case V1NextOpen => None
    case V2LimitN3 => Some(3)
    case V2LimitN5 => Some(5)
  }

  predicate Positive(x: Option<real>) {
    x.Some? && x.value > 0.0
  }

  predicate Usable(b: DayBar) {
    Positive(b.open) && Positive(b.high) && Positive(b.low) && Positive(b.close)
  }

  predicate SpanUsable(s: Series, i: nat, span: nat) {
    i + span < |s.bars| && forall j | i < j <= i + span :: Usable(s.bars[j])
  }

  method BarsUsable(s: Series, i: nat, span: nat) returns (ok: bool)
    ensures ok == SpanUsable(s, i, span)
  {
    if i + span >= |s.bars| {
      return false;
    }
    var j := i + 1;
    while j < i + span + 1
      invariant i + 1 <= j <= i + span + 1
      invariant forall x | i < x < j :: Usable(s.bars[x])
    {
      var prices := [s.bars[j].open, s.bars[j].high, s.bars[j].low, s.bars[j].close];
      var n := 0;
      while n < |prices|
        invariant 0 <= n <= |prices|
        invariant forall x | 0 <= x < n :: Positive(prices[x])
      {
        if prices[n].None? || prices[n].value <= 0.0 {
          assert prices[0] == s.bars[j].open && prices[1] == s.bars[j].high;
          return false;
        }
        n := n + 1;
      }
      assert Positive(prices[0]) && Positive(prices[1]) && Positive(prices[2]) && Positive(prices[3]);
      j := j + 1;
    }
    return true;
  }

  /** What the study requires of a signal before it is offered to any variant. */
  predicate Admitted(s: Series, sig: Signal) {
    SpanUsable(s, sig.idx, ADMISSION_SPAN)
  }

  /** The session trades at or below the level; an absent low compares false. */
  predicate Reaches(b: DayBar, level: real) {
    b.low.Some? && b.low.value <= level
  }

  /** The first session of [lo, hi) that reaches the level, or hi. */
  function FirstTouch(s: Series, level: real, lo: nat, hi: nat): (j: nat)
    requires lo <= hi <= |s.bars|
    ensures lo <= j <= hi
    ensures forall x | lo <= x < j :: !Reaches(s.bars[x], level)
    ensures j < hi ==> Reaches(s.bars[j], level)
    decreases hi - lo
  {
    if lo == hi || Reaches(s.bars[lo], level) then lo else FirstTouch(s, level, lo + 1, hi)
  }

  /** The fill session and price of an admitted signal, or None when a limit is never reached. */
  function Fill(s: Series, sig: Signal, v: Variant): Option<(nat, real)>
    requires Admitted(s, sig)
  {
    assert Usable(s.bars[sig.idx + 1]);
    match FillWindow(v)
    case None => Some((sig.idx + 1, s.bars[sig.idx + 1].open.value))
    case Some(n) =>
      var j := FirstTouch(s, sig.level, sig.idx + 1, sig.idx + 1 + n);
      if j == sig.idx + 1 + n then None else Some((j, MinReal(s.bars[j].open.value, sig.level)))
  }

  method FillFor(s: Series, sig: Signal, v: Variant) returns (fill: Option<(nat, real)>)
    requires Admitted(s, sig)
    ensures fill == Fill(s, sig, v)
  {
    var window := FillWindow(v);
    if window.None? {
      return Some((sig.idx + 1, s.bars[sig.idx + 1].open.value));
    }
    var j := sig.idx + 1;
    while j < sig.idx + window.value + 1
      invariant sig.idx + 1 <= j <= sig.idx + window.value + 1
      invariant forall x | sig.idx < x < j :: !Reaches(s.bars[x], sig.level)
    {
      if Reaches(s.bars[j], sig.level) {
        return Some((j, MinReal(s.bars[j].open.value, sig.level)));
      }
      j := j + 1;
    }
    return None;
  }

  // ---------------------------------------------------------------- properties of fills

  /**
   Under every variant an admitted signal's fill is in bounds, at a positive price, at most five
   sessions after the signal, with every exit session present and usable.
   */
  lemma {:induction false} FillIsMeasurable(s: Series, sig: Signal, v: Variant)
    requires Admitted(s, sig) && sig.level > 0.0
    ensures v == V1NextOpen ==> Fill(s, sig, v).Some?
    ensures Fill(s, sig, v).Some? ==>
              var (f, px) := Fill(s, sig, v).value;
              && px > 0.0 && sig.idx < f <= sig.idx + MAX_FILL_WINDOW
              && f + MAX_HORIZON < |s.bars| && forall j | f <= j <= f + MAX_HORIZON :: Usable(s.bars[j])
  {
  }

  /**
   A limit fills on the first session of its window whose low reaches the level, and never above the
   level or that session's open, nor below its low; it stays unfilled exactly when no low does.
   */
  lemma {:induction false} LimitFillIsFirstTouch(s: Series, sig: Signal, v: Variant)
    requires Admitted(s, sig) && v != V1NextOpen
    ensures var n := FillWindow(v).value;
            Fill(s, sig, v).None? <==> forall j | sig.idx < j <= sig.idx + n :: !Reaches(s.bars[j], sig.level)
    ensures Fill(s, sig, v).Some? ==>
              var (f, px) := Fill(s, sig, v).value;
              && sig.idx < f <= sig.idx + FillWindow(v).value && Reaches(s.bars[f], sig.level) && Usable(s.bars[f])
              && (forall j | sig.idx < j < f :: !Reaches(s.bars[j], sig.level))
              && px <= sig.level && px <= s.bars[f].open.value && (px == sig.level || px == s.bars[f].open.value)
              && (s.bars[f].low.value <= s.bars[f].open.value ==> s.bars[f].low.value <= px)
  {
    var n := FillWindow(v).value;
    var j := FirstTouch(s, sig.level, sig.idx + 1, sig.idx + 1 + n);
    assert j < sig.idx + 1 + n ==> sig.idx < j <= sig.idx + n;
  }

  /** Every fill of the three-session limit is the five-session limit's fill, same bar and price. */
  lemma {:induction false} ShortLimitFillIsLongLimitFill(s: Series, sig: Signal)
    requires Admitted(s, sig)
    ensures Fill(s, sig, V2LimitN3).Some? ==> Fill(s, sig, V2LimitN5) == Fill(s, sig, V2LimitN3)
    ensures Fill(s, sig, V2LimitN3).None? && Fill(s, sig, V2LimitN5).Some? ==>
              sig.idx + 3 < Fill(s, sig, V2LimitN5).value.0
  {
    var i, j := FirstTouch(s, sig.level, sig.idx + 1, sig.idx + 4), FirstTouch(s, sig.level, sig.idx + 1, sig.idx + 6);
    assert i < sig.idx + 4 ==> i == j;
  }

  // ---------------------------------------------------------------- measurement

  datatype Trade = Trade(
    symbol: int, variant: Variant, signalDate: int, fillDate: int, fillIdx: nat, fillPx: real,
    delay: int, gross: map<int, real>, net: map<int, real>)

  function GrossPct(s: Series, fillIdx: nat, fillPx: real, k: nat): real
    requires fillIdx + k < |s.bars| && s.bars[fillIdx + k].close.Some? && fillPx != 0.0
  {
    (s.bars[fillIdx + k].close.value / fillPx - 1.0) * 100.0
  }

  predicate Measurable(s: Series, fillIdx: nat, fillPx: real) {
    fillPx > 0.0 && fillIdx + MAX_HORIZON < |s.bars| && |s.dates| == |s.bars|
    && forall j | fillIdx <= j <= fillIdx + MAX_HORIZON :: Usable(s.bars[j])
  }

  /** Exits are anchored on the fill; one round trip is charged at every horizon. */
  function Returns(s: Series, fillIdx: nat, fillPx: real, charge: real, ks: seq<int>): map<int, real>
    requires Measurable(s, fillIdx, fillPx) && Horizons(ks)
  {
    if ks == [] then map[]
    else
      var k := ks[|ks| - 1];
      assert Usable(s.bars[fillIdx + k]);
      Returns(s, fillIdx, fillPx, charge, ks[..|ks| - 1])[k := GrossPct(s, fillIdx, fillPx, k) - charge]
  }

  lemma {:induction false} ReturnsAt(s: Series, fillIdx: nat, fillPx: real, charge: real, ks: seq<int>)
    requires Measurable(s, fillIdx, fillPx) && Horizons(ks)
    ensures var r := Returns(s, fillIdx, fillPx, charge, ks);
            && (forall k :: k in r <==> k in ks)
            && forall k | k in ks :: 0 <= k <= MAX_HORIZON && Usable(s.bars[fillIdx + k])
                                     && r[k] == GrossPct(s, fillIdx, fillPx, k) - charge
  {
    if ks != [] {
      ReturnsAt(s, fillIdx, fillPx, charge, ks[..|ks| - 1]);
    }
  }

  lemma {:induction false} ReturnsStep(s: Series, fillIdx: nat, fillPx: real, charge: real, ks: seq<int>, n: nat)
    requires Measurable(s, fillIdx, fillPx) && Horizons(ks)
    requires n < |ks| && Usable(s.bars[fillIdx + ks[n]])
    ensures Returns(s, fillIdx, fillPx, charge, ks[..n + 1])
         == Returns(s, fillIdx, fillPx, charge, ks[..n])[ks[n] := GrossPct(s, fillIdx, fillPx, ks[n]) - charge]
  {
    assert ks[..n + 1][..n] == ks[..n];
  }

  predicate Horizons(ks: seq<int>) {
    forall i | 0 <= i < |ks| :: 0 <= ks[i] <= MAX_HORIZON
  }

  function Measured(s: Series, sig: Signal, v: Variant, fillIdx: nat, fillPx: real, cost: real, ks: seq<int>): Trade
    requires Measurable(s, fillIdx, fillPx) && Horizons(ks)
  {
    Trade(s.symbol, v, sig.date, s.dates[fillIdx], fillIdx, fillPx, fillIdx - sig.idx,
          Returns(s, fillIdx, fillPx, 0.0, ks), Returns(s, fillIdx, fillPx, cost, ks))
  }

  method Measure(s: Series, sig: Signal, v: Variant, fillIdx: nat, fillPx: real, cost: real, ks: seq<int>)
    returns (t: Trade)
    requires Measurable(s, fillIdx, fillPx) && Horizons(ks)
    ensures t == Measured(s, sig, v, fillIdx, fillPx, cost, ks)
  {
    var gross: map<int, real> := map[];
    var net: map<int, real> := map[];
    var n := 0;
    while n < |ks|
      invariant 0 <= n <= |ks|
      invariant gross == Returns(s, fillIdx, fillPx, 0.0, ks[..n])
      invariant net == Returns(s, fillIdx, fillPx, cost, ks[..n])
    {
      var k := ks[n];
      assert Usable(s.bars[fillIdx + k]);
      ReturnsStep(s, fillIdx, fillPx, 0.0, ks, n);
      ReturnsStep(s, fillIdx, fillPx, cost, ks, n);
      var g := GrossPct(s, fillIdx, fillPx, k);
      gross := gross[k := g];
      net := net[k := g - cost];
      n := n + 1;
    }
    assert ks[..n] == ks;
    t := Trade(s.symbol, v, sig.date, s.dates[fillIdx], fillIdx, fillPx, fillIdx - sig.idx, gross, net);
  }

  /** Whatever variant filled it, an admitted signal is measured at every horizon, inside its bars. */
  lemma {:induction false} FilledIsMeasured(s: Series, sig: Signal, v: Variant, cost: real)
    requires Admitted(s, sig) && sig.level > 0.0 && |s.dates| == |s.bars| && Fill(s, sig, v).Some?
    ensures var (f, px) := Fill(s, sig, v).value;
            && Measurable(s, f, px) && Horizons(HORIZONS)
            && var t := Measured(s, sig, v, f, px, cost, HORIZONS);
               && 1 <= t.delay <= MAX_FILL_WINDOW
               && (forall k :: (k in t.gross <==> k in HORIZONS) && (k in t.net <==> k in HORIZONS))
               && forall k | k in HORIZONS :: t.gross[k] - t.net[k] == cost
  {
    FillIsMeasurable(s, sig, v);
    var (f, px) := Fill(s, sig, v).value;
    ReturnsAt(s, f, px, 0.0, HORIZONS);
    ReturnsAt(s, f, px, cost, HORIZONS);
  }
}
